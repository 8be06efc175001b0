/**
 * The values a browser session holds: the `SessionSchema` dataclass, its one
 * field `auth`, and the pending-auth record `SessionAuthSchema`. Dataclasses
 * do not check field types, so at run time `auth` may hold any Python value;
 * `PyObj` is the slice of Python values that occurs in a session.
 */
module SessionSchemas {
  import opened Common

  /**
   * `SessionAuthSchema`: the pending authorization of one linking attempt.
   * It derives from `CustomSchemaBase`, which marks it for tagged encoding.
   */
  datatype SessionAuth = SessionAuth(discordId: int, codeVerifier: string, codeChallengeMethod: string, state: string)

  /** The Python values that can sit in a session. */
  datatype PyObj =
    | PyNone
    | PyInt(i: int)
    | PyStr(s: string)
    | PyDict(items: map<string, PyObj>)
    | PyAuth(auth: SessionAuth)     // an instance of SessionAuthSchema
    | PySession(session: Session)   // an instance of SessionSchema

  /** `SessionSchema`: a single field `auth`. It is NOT a `CustomSchemaBase`. */
  datatype Session = Session(auth: PyObj)

  /** `SessionSchema()`: no pending authorization. */
  const DefaultSession: Session := Session(PyNone)

  const DiscordIdField := "discord_id"
  const CodeVerifierField := "code_verifier"
  const CodeChallengeMethodField := "code_challenge_method"
  const StateField := "state"

  /** The field names of `SessionAuthSchema`, in declaration order. */
  const AuthFieldNames: set<string> := {DiscordIdField, CodeVerifierField, CodeChallengeMethodField, StateField}

  /** `o.__dict__` of a `SessionAuthSchema` instance; also the dict `/auth` writes. */
  function AuthFields(a: SessionAuth): (d: map<string, PyObj>)
    ensures d.Keys == AuthFieldNames
    ensures d[DiscordIdField] == PyInt(a.discordId) && d[CodeVerifierField] == PyStr(a.codeVerifier)
    ensures d[CodeChallengeMethodField] == PyStr(a.codeChallengeMethod) && d[StateField] == PyStr(a.state)
  {
    map[DiscordIdField := PyInt(a.discordId),
        CodeVerifierField := PyStr(a.codeVerifier),
        CodeChallengeMethodField := PyStr(a.codeChallengeMethod),
        StateField := PyStr(a.state)]
  }

  /**
   * `SessionAuthSchema(**d)`: keyword arguments must name exactly the four
   * fields. Field types are required to be the declared ones.
   */
  function AuthFromFields(d: map<string, PyObj>): (r: Option<SessionAuth>)
    ensures r.Some? ==> d.Keys == AuthFieldNames && d == AuthFields(r.value)
  {
    if d.Keys != AuthFieldNames then None
    else if !d[DiscordIdField].PyInt? || !d[CodeVerifierField].PyStr?
         || !d[CodeChallengeMethodField].PyStr? || !d[StateField].PyStr? then None
    else Some(SessionAuth(d[DiscordIdField].i, d[CodeVerifierField].s, d[CodeChallengeMethodField].s, d[StateField].s))
  }

  /** Constructing from the field dict recovers the record. */
  lemma AuthFieldsRoundTrip(a: SessionAuth)
    ensures AuthFromFields(AuthFields(a)) == Some(a)
  {
  }

  /** `SessionSchema(**d)`: the only keyword is `auth`, which defaults to `None`. */
  function SessionFromFields(d: map<string, PyObj>): (r: Option<Session>)
    ensures r.Some? <==> d.Keys <= {"auth"}
    ensures r.Some? && "auth" in d ==> r.value.auth == d["auth"]
    ensures r.Some? && "auth" !in d ==> r.value == DefaultSession
  {
    if d.Keys <= {"auth"} then Some(Session(if "auth" in d then d["auth"] else PyNone)) else None
  }
}
