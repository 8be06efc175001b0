/**
 * The session codec and key-value store of the `redis` package:
 * `SessionEncoder.default` (tagging `CustomSchemaBase` instances with their
 * class name), `SessionEncoder.decode_hook` (the `object_hook` that rebuilds
 * them), and `RedisCrud.get` / `set` / `delete` over an abstract map from keys
 * to JSON documents. JSON text is represented by its tree, not by characters.
 */
module SessionStore {
  import opened Common
  import opened SessionSchemas

  /** A JSON document as a tree. */
  datatype Json = JNull | JInt(i: int) | JStr(s: string) | JObject(members: map<string, Json>)

  datatype CodecError =
    | NotSerializable   // TypeError from JSONEncoder.default
    | UnknownClass      // ValueError("Unknown class name: ...")
    | BadArguments      // KeyError / TypeError while rebuilding a class

  const ClassKey := "_cls_name_"
  const ValueKey := "__value__"
  const AuthClassName := "SessionAuthSchema"
  const SessionClassName := "SessionSchema"

  /** The JSON object of a `SessionAuthSchema`'s fields. */
  function AuthJson(a: SessionAuth): (m: map<string, Json>)
    ensures m.Keys == AuthFieldNames
    ensures m[DiscordIdField] == JInt(a.discordId) && m[CodeVerifierField] == JStr(a.codeVerifier)
    ensures m[CodeChallengeMethodField] == JStr(a.codeChallengeMethod) && m[StateField] == JStr(a.state)
  {
    map[DiscordIdField := JInt(a.discordId),
        CodeVerifierField := JStr(a.codeVerifier),
        CodeChallengeMethodField := JStr(a.codeChallengeMethod),
        StateField := JStr(a.state)]
  }

  /** What `json.dumps(..., cls=SessionEncoder)` accepts: no `SessionSchema` instance inside. */
  predicate Serializable(o: PyObj) {
    match o
    case PySession(_) => false
    case PyDict(m) => forall k :: k in m ==> Serializable(m[k])
    case _ => true
  }

  /**
   * `json.dumps(o, cls=SessionEncoder)`. A `CustomSchemaBase` instance becomes
   * `{"_cls_name_": <class name>, "__value__": <its fields>}`; a
   * `SessionSchema` nested in a value is not serializable (it is not a
   * `CustomSchemaBase`, so `default` defers to the base encoder, which raises).
   */
  function Encode(o: PyObj): (r: Result<Json, CodecError>)
    ensures r.Ok? <==> Serializable(o)
    ensures o.PyAuth? ==> r == Ok(JObject(map[ClassKey := JStr(AuthClassName), ValueKey := JObject(AuthJson(o.auth))]))
    ensures o.PyDict? && r.Ok? ==> r.value.JObject? && r.value.members.Keys == o.items.Keys
  {
    match o
    case PyNone => Ok(JNull)
    case PyInt(i) => Ok(JInt(i))
    case PyStr(s) => Ok(JStr(s))
    case PyDict(m) =>
      if forall k :: k in m ==> Encode(m[k]).Ok? then Ok(JObject(map k | k in m :: Encode(m[k]).value))
      else Err(NotSerializable)
    case PyAuth(a) => Ok(JObject(map[ClassKey := JStr(AuthClassName), ValueKey := JObject(AuthJson(a))]))
    case PySession(_) => Err(NotSerializable)
  }

  /**
   * `SessionEncoder.decode_hook(d)`: a dict without `_cls_name_` comes back
   * unchanged; otherwise the tag is popped, looked up in `_classes`, and the
   * class is built from `d["__value__"]`.
   */
  function DecodeHook(d: map<string, PyObj>): (r: Result<PyObj, CodecError>)
    ensures ClassKey !in d ==> r == Ok(PyDict(d))
    ensures ClassKey in d && d[ClassKey] != PyStr(AuthClassName) && d[ClassKey] != PyStr(SessionClassName)
            ==> r == Err(UnknownClass)
    ensures r.Ok? && r.value.PyAuth? ==>
            ClassKey in d && ValueKey in d && d[ValueKey] == PyDict(AuthFields(r.value.auth))
  {
    if ClassKey !in d then Ok(PyDict(d))
    else
      var name := d[ClassKey];
      var rest := d - {ClassKey};
      if name != PyStr(AuthClassName) && name != PyStr(SessionClassName) then Err(UnknownClass)
      else if ValueKey !in rest then Err(BadArguments)
      else if !rest[ValueKey].PyDict? then Err(BadArguments)
      else
        var fields := rest[ValueKey].items;
        if name == PyStr(AuthClassName) then
          match AuthFromFields(fields)
          case Some(a) => Ok(PyAuth(a))
          case None => Err(BadArguments)
        else
          match SessionFromFields(fields)
          case Some(s) => Ok(PySession(s))
          case None => Err(BadArguments)
  }

  /**
   * `json.loads(text, object_hook=SessionEncoder.decode_hook)`: objects are
   * rebuilt innermost first. When a member fails, the whole load fails; the
   * model reports `UnknownClass` if any member failed with it.
   */
  function Decode(j: Json): (r: Result<PyObj, CodecError>)
    ensures j.JNull? ==> r == Ok(PyNone)
    ensures r.Ok? && r.value.PyDict? ==> j.JObject? && ClassKey !in r.value.items
  {
    match j
    case JNull => Ok(PyNone)
    case JInt(i) => Ok(PyInt(i))
    case JStr(s) => Ok(PyStr(s))
    case JObject(m) =>
      if forall k :: k in m ==> Decode(m[k]).Ok? then
        DecodeHook(map k | k in m :: Decode(m[k]).value)
      else if exists k :: k in m && Decode(m[k]) == Err(UnknownClass) then Err(UnknownClass)
      else Err(BadArguments)
  }

  /** Decoding an object whose members all decode applies the hook to the decoded members. */
  lemma DecodeObject(m: map<string, Json>, decoded: map<string, PyObj>)
    requires decoded.Keys == m.Keys
    requires forall k :: k in m ==> Decode(m[k]) == Ok(decoded[k])
    ensures Decode(JObject(m)) == DecodeHook(decoded)
  {
    assert forall k :: k in m ==> Decode(m[k]).Ok?;
    var members := map k | k in m :: Decode(m[k]).value;
    assert members == decoded;
    assert Decode(JObject(m)) == DecodeHook(members);
  }

  /**
   * The values that survive a round trip: serializable, and no plain dict
   * that would be mistaken for a tagged object.
   */
  predicate Plain(o: PyObj) {
    match o
    case PySession(_) => false
    case PyDict(m) => ClassKey !in m && forall k :: k in m ==> Plain(m[k])
    case _ => true
  }

  lemma {:induction false} PlainIsSerializable(o: PyObj)
    requires Plain(o)
    ensures Serializable(o)
  {
    match o
    case PyDict(m) =>
      forall k | k in m
        ensures Serializable(m[k])
      {
        PlainIsSerializable(m[k]);
      }
    case _ =>
  }

  /** The untagged field object of a `SessionAuthSchema` loads as its plain field dict. */
  lemma DecodeAuthFields(a: SessionAuth)
    ensures Decode(JObject(AuthJson(a))) == Ok(PyDict(AuthFields(a)))
  {
    var m := AuthJson(a);
    forall k | k in m
      ensures Decode(m[k]) == Ok(AuthFields(a)[k])
    {
    }
    DecodeObject(m, AuthFields(a));
    AuthFieldsUntagged(a);
  }

  /** No field of `SessionAuthSchema` is called `_cls_name_`. */
  lemma AuthFieldsUntagged(a: SessionAuth)
    ensures ClassKey !in AuthFields(a)
    ensures Plain(PyDict(AuthFields(a)))
  {
    assert |ClassKey| == 10;
  }

  /** Decoding the tagged form of a `SessionAuthSchema` rebuilds an equal record. */
  lemma DecodeTaggedAuth(a: SessionAuth)
    ensures Decode(JObject(AuthJson(a))) == Ok(PyDict(AuthFields(a)))
    ensures Decode(JObject(map[ClassKey := JStr(AuthClassName), ValueKey := JObject(AuthJson(a))])) == Ok(PyAuth(a))
  {
    DecodeAuthFields(a);
    var top := map[ClassKey := JStr(AuthClassName), ValueKey := JObject(AuthJson(a))];
    var decoded := map[ClassKey := PyStr(AuthClassName), ValueKey := PyDict(AuthFields(a))];
    assert ClassKey != ValueKey;
    assert Decode(top[ClassKey]) == Ok(decoded[ClassKey]);
    assert Decode(top[ValueKey]) == Ok(decoded[ValueKey]);
    DecodeObject(top, decoded);
    HookRebuildsAuth(a);
  }

  /** The hook rebuilds a `SessionAuthSchema` from its tag and field dict. */
  lemma HookRebuildsAuth(a: SessionAuth)
    ensures DecodeHook(map[ClassKey := PyStr(AuthClassName), ValueKey := PyDict(AuthFields(a))]) == Ok(PyAuth(a))
  {
    var decoded := map[ClassKey := PyStr(AuthClassName), ValueKey := PyDict(AuthFields(a))];
    assert ClassKey != ValueKey;
    AuthFieldsRoundTrip(a);
    assert decoded - {ClassKey} == map[ValueKey := PyDict(AuthFields(a))];
  }

  /** `json.loads(json.dumps(o))` with the session encoder and hook gives `o` back. */
  lemma {:induction false} DecodeEncode(o: PyObj)
    requires Plain(o)
    ensures Encode(o).Ok?
    ensures Decode(Encode(o).value) == Ok(o)
  {
    PlainIsSerializable(o);
    match o
    case PyDict(m) =>
      var jm := map k | k in m :: Encode(m[k]).value;
      assert Encode(o) == Ok(JObject(jm));
      forall k | k in jm
        ensures Decode(jm[k]) == Ok(m[k])
      {
        DecodeEncode(m[k]);
      }
      DecodeObject(jm, m);
    case PyAuth(a) =>
      DecodeTaggedAuth(a);
    case _ =>
  }

  // ---------------------------------------------------------------------------
  // RedisCrud
  // ---------------------------------------------------------------------------

  /** The key-value store: each key holds one JSON document. */
  type KvStore = map<string, Json>

  /**
   * `RedisCrud.get(key)`: `None` for an absent key; otherwise the stored
   * document is loaded with the hook and passed as keywords to `SessionSchema`.
   */
  function Get(store: KvStore, key: string): (r: Result<Option<Session>, CodecError>)
    ensures key !in store ==> r == Ok(None)
    ensures r.Ok? && r.value.Some? ==> key in store && store[key].JObject?
  {
    if key !in store then Ok(None)
    else match Decode(store[key])
      case Err(e) => Err(e)
      case Ok(o) =>
        if !o.PyDict? then Err(BadArguments)
        else match SessionFromFields(o.items)
          case Some(s) => Ok(Some(s))
          case None => Err(BadArguments)
  }

  /**
   * `RedisCrud.set(key, value)`: stores `json.dumps(value.__dict__)`, the
   * untagged field dict of the `SessionSchema`. Expiry is not modelled.
   */
  function Set(store: KvStore, key: string, s: Session): (r: Result<KvStore, CodecError>)
    ensures r.Ok? <==> Serializable(s.auth)
    ensures r.Ok? ==> r.value.Keys == store.Keys + {key}
    ensures r.Ok? ==> forall k :: k in store && k != key ==> r.value[k] == store[k]
    ensures r.Ok? ==> r.value[key].JObject? && r.value[key].members.Keys == {"auth"}
  {
    var m := map["auth" := s.auth];
    var d := PyDict(m);
    assert m.Keys == {"auth"} && m["auth"] == s.auth;
    assert Serializable(d) <==> Serializable(s.auth);
    match Encode(d)
    case Ok(j) => Ok(store[key := j])
    case Err(e) => Err(e)
  }

  /** `RedisCrud.delete(key)`. */
  function Delete(store: KvStore, key: string): (r: KvStore)
    ensures key !in r
    ensures forall k :: k in store && k != key ==> k in r && r[k] == store[k]
    ensures r.Keys == store.Keys - {key}
  {
    store - {key}
  }

  /**
   * Reading a key back after writing it yields an equal session, whether
   * `auth` is `None`, a `SessionAuthSchema`, or the plain dict the `/auth`
   * handler writes.
   */
  lemma GetAfterSet(store: KvStore, key: string, s: Session)
    requires Plain(s.auth)
    ensures Set(store, key, s).Ok?
    ensures Get(Set(store, key, s).value, key) == Ok(Some(s))
  {
    var d := PyDict(map["auth" := s.auth]);
    assert Plain(d);
    DecodeEncode(d);
  }

  /** Every session the server writes round-trips through the store. */
  lemma SessionShapesRoundTrip(store: KvStore, key: string, a: SessionAuth)
    ensures Set(store, key, DefaultSession).Ok?
         && Get(Set(store, key, DefaultSession).value, key) == Ok(Some(DefaultSession))
    ensures Set(store, key, Session(PyAuth(a))).Ok?
         && Get(Set(store, key, Session(PyAuth(a))).value, key) == Ok(Some(Session(PyAuth(a))))
    ensures Set(store, key, Session(PyDict(AuthFields(a)))).Ok?
         && Get(Set(store, key, Session(PyDict(AuthFields(a)))).value, key) == Ok(Some(Session(PyDict(AuthFields(a)))))
  {
    GetAfterSet(store, key, DefaultSession);
    GetAfterSet(store, key, Session(PyAuth(a)));
    AuthFieldsUntagged(a);
    GetAfterSet(store, key, Session(PyDict(AuthFields(a))));
  }

  /** Writing one key does not change what another key reads. */
  lemma GetOtherAfterSet(store: KvStore, key: string, other: string, s: Session)
    requires other != key
    requires Set(store, key, s).Ok?
    ensures Get(Set(store, key, s).value, other) == Get(store, other)
  {
  }

  /** After `delete`, the key reads as absent and every other key is unaffected. */
  lemma GetAfterDelete(store: KvStore, key: string, other: string)
    requires other != key
    ensures Get(Delete(store, key), key) == Ok(None)
    ensures Get(Delete(store, key), other) == Get(store, other)
  {
  }
}
