/**
 * The three routes of the v1 router that make up an account link, as state
 * transitions over the store and the browser session:
 *
 *   POST /v1/start    a bot asks for a link URL for a Discord user;
 *   GET  /v1/auth     the user opens that URL and is sent to the identity
 *                     provider with a PKCE challenge;
 *   GET  /v1/callback the provider sends the user back; the Wikidot account is
 *                     looked up or created and linked to the Discord account.
 *
 * The identity provider's `/user` endpoint, the clock, `secrets.token_urlsafe`
 * and SHA-256 are parameters. An exception escaping a handler becomes the
 * error middleware's plain 500 response (`InternalError`).
 */
module Handlers {
  import opened Common
  import opened Base64Url
  import opened Pkce
  import opened ApiKey
  import opened Store
  import opened SessionSchemas
  import SessionStore

  /** The environment the router reads at import time (the client secret only travels to the provider). */
  datatype Config = Config(apiKey: Option<string>, siteUrl: string, authApiUrl: string, clientId: string)

  /** What a handler sees and changes: the database and the request's session. */
  datatype State = State(db: Db, session: Session)

  datatype Response =
    | FlowStarted(url: string)                                   // FlowStartResponseSchema, 200
    | HttpError(status: int, detail: string)                     // an HTTPException
    | ErrorPage(status: int, errorCode: string)                  // error.html
    | SuccessPage(message: string, discordName: string, discordIconUrl: string,
                  wikidotName: string, wikidotIconUrl: string)   // success.html, 200
    | Redirect(target: string, query: seq<(string, string)>)     // 302 with a Location header
    | InternalError                                              // the error middleware's 500

  function StatusCode(r: Response): int {
    match r
    case FlowStarted(_) => 200
    case HttpError(status, _) => status
    case ErrorPage(status, _) => status
    case SuccessPage(_, _, _, _, _) => 200
    case Redirect(_, _) => 302
    case InternalError => 500
  }

  /** The value of the first query parameter called `name`. */
  function QueryValue(query: seq<(string, string)>, name: string): (r: Option<string>)
    ensures r.Some? <==> exists i :: 0 <= i < |query| && query[i].0 == name
    ensures r.Some? ==> exists i :: 0 <= i < |query| && query[i] == (name, r.value)
  {
    if |query| == 0 then None
    else if query[0].0 == name then Some(query[0].1)
    else
      var r := QueryValue(query[1..], name);
      assert forall i :: 1 <= i < |query| ==> query[i] == query[1..][i - 1];
      r
  }

  /** The lookup finds the parameter at `i` when no earlier one has its name. */
  lemma {:induction false} QueryValueAt(query: seq<(string, string)>, i: nat, name: string)
    requires i < |query| && query[i].0 == name
    requires forall j :: 0 <= j < i ==> query[j].0 != name
    ensures QueryValue(query, name) == Some(query[i].1)
  {
    if i > 0 {
      QueryValueAt(query[1..], i - 1, name);
    }
  }

  const InvalidSession := "invalid session"
  const InvalidState := "invalid state"
  const InvalidToken := "invalid token"
  const DiscordIdNotFound := "discord id not found"
  const AlreadyLinkedMessage := "すでにアカウントが連携されています"
  const LinkedMessage := "アカウント連携が完了しました"

  function CallbackUrl(cfg: Config): string {
    cfg.siteUrl + "/v1/callback"
  }

  function AvatarUrl(wikidotId: int): string {
    "https://www.wikidot.com/avatar.php?userid=" + IntToString(wikidotId)
  }

  // ---------------------------------------------------------------------------
  // POST /v1/start
  // ---------------------------------------------------------------------------

  /**
   * `flow_start`. `authorization` is the request's `Authorization` header and
   * `newToken` the value `secrets.token_urlsafe(32)` produces. `start_flow`
   * never returns `None`, so the 400 branch is dead; a token collision raises
   * at commit, after the account creation was committed, and ends in a 500.
   */
  function FlowStart(cfg: Config, s: State, authorization: Option<string>, p: DiscordProfile, now: Time, newToken: string): (r: (State, Response))
    ensures r.0.session == s.session
    ensures StatusCode(r.1) != 400
    ensures !CheckApiKey(authorization, cfg.apiKey) ==> r == (s, HttpError(401, "Unauthorized"))
    ensures CheckApiKey(authorization, cfg.apiKey) ==> r.0.db == StartFlow(s.db, p, now, newToken).0
    ensures r.1.FlowStarted? <==> CheckApiKey(authorization, cfg.apiKey) && newToken !in TokenStrings(s.db)
    ensures r.1.FlowStarted? ==> r.1.url == cfg.siteUrl + "/v1/auth?token=" + newToken
    ensures CheckApiKey(authorization, cfg.apiKey) && !r.1.FlowStarted? ==> r.1 == InternalError
  {
    if !CheckApiKey(authorization, cfg.apiKey) then (s, HttpError(401, "Unauthorized"))
    else
      var (db1, token) := StartFlow(s.db, p, now, newToken);
      match token
      case Err(_) => (State(db1, s.session), InternalError)
      case Ok(t) => (State(db1, s.session), FlowStarted(cfg.siteUrl + "/v1/auth?token=" + t))
  }

  // ---------------------------------------------------------------------------
  // GET /v1/auth
  // ---------------------------------------------------------------------------

  /** The query string of the redirect to the provider's `/authorize`. */
  function AuthorizeQuery(cfg: Config, token: string, challenge: string): seq<(string, string)> {
    [("response_type", "code"),
     ("client_id", cfg.clientId),
     ("redirect_uri", CallbackUrl(cfg)),
     ("scope", "identify"),
     ("state", token),
     ("code_challenge", challenge),
     ("code_challenge_method", "S256")]
  }

  /** The redirect carries the token as `state`, the callback URL and the S256 challenge. */
  lemma AuthorizeQueryValues(cfg: Config, token: string, challenge: string)
    ensures var q := AuthorizeQuery(cfg, token, challenge);
            && QueryValue(q, "state") == Some(token)
            && QueryValue(q, "redirect_uri") == Some(CallbackUrl(cfg))
            && QueryValue(q, "code_challenge") == Some(challenge)
            && QueryValue(q, "code_challenge_method") == Some("S256")
  {
    var q := AuthorizeQuery(cfg, token, challenge);
    QueryValueAt(q, 2, "redirect_uri");
    QueryValueAt(q, 4, "state");
    ChallengeNames(q);
    QueryValueAt(q, 5, "code_challenge");
    QueryValueAt(q, 6, "code_challenge_method");
  }

  /** `code_challenge` and `code_challenge_method` each occur first at their own position. */
  lemma ChallengeNames(q: seq<(string, string)>)
    requires |q| == 7 && q[0].0 == "response_type" && q[1].0 == "client_id" && q[2].0 == "redirect_uri"
    requires q[3].0 == "scope" && q[4].0 == "state" && q[5].0 == "code_challenge"
    ensures forall j :: 0 <= j < 5 ==> q[j].0 != "code_challenge"
    ensures forall j :: 0 <= j < 6 ==> q[j].0 != "code_challenge_method"
  {
    assert |"code_challenge"| == 14 && |"code_challenge_method"| == 21;
  }

  /**
   * `auth`: resolve the token; on success store the pending authorization in
   * the session as a plain dict and redirect to the provider. `verifier` is
   * the value of `secrets.token_urlsafe(43)`.
   */
  function Auth(cfg: Config, s: State, token: string, now: Time, verifier: string, sha256: string -> Digest): (r: (State, Response))
    ensures r.0.db == s.db
    ensures GetDiscordAccountFromToken(s.db, token, now).None? ==> r == (s, ErrorPage(400, InvalidToken))
    ensures GetDiscordAccountFromToken(s.db, token, now).Some? ==>
      var owner := GetDiscordAccountFromToken(s.db, token, now).value;
      && r.0.session.auth == PyDict(AuthFields(SessionAuth(owner.discordId, verifier, "S256", token)))
      && r.1.Redirect?
      && r.1.target == cfg.authApiUrl + "/authorize"
      && QueryValue(r.1.query, "state") == Some(token)
      && QueryValue(r.1.query, "redirect_uri") == Some(CallbackUrl(cfg))
      && QueryValue(r.1.query, "code_challenge_method") == Some("S256")
      && QueryValue(r.1.query, "code_challenge") == Some(EncodeUnpadded(sha256(verifier)))
      && DecodeUnpadded(QueryValue(r.1.query, "code_challenge").value) == Some(sha256(verifier))
  {
    match GetDiscordAccountFromToken(s.db, token, now)
    case None => (s, ErrorPage(400, InvalidToken))
    case Some(owner) =>
      var challenge := CreateCodeChallenge(verifier, "S256", sha256).value;
      var pending := SessionAuth(owner.discordId, verifier, "S256", token);
      AuthorizeQueryValues(cfg, token, challenge);
      (State(s.db, Session(PyDict(AuthFields(pending)))), Redirect(cfg.authApiUrl + "/authorize", AuthorizeQuery(cfg, token, challenge)))
  }

  /** The session `/auth` writes survives the session store unchanged. */
  lemma AuthSessionPersists(cfg: Config, s: State, token: string, now: Time, verifier: string, sha256: string -> Digest,
                            store: SessionStore.KvStore, key: string)
    requires GetDiscordAccountFromToken(s.db, token, now).Some?
    ensures var session := Auth(cfg, s, token, now, verifier, sha256).0.session;
            && SessionStore.Set(store, key, session).Ok?
            && SessionStore.Get(SessionStore.Set(store, key, session).value, key) == Ok(Some(session))
  {
    var owner := GetDiscordAccountFromToken(s.db, token, now).value;
    SessionStore.SessionShapesRoundTrip(store, key, SessionAuth(owner.discordId, verifier, "S256", token));
  }

  // ---------------------------------------------------------------------------
  // GET /v1/callback
  // ---------------------------------------------------------------------------

  /**
   * The answer of the provider's `/user` endpoint to the code and verifier:
   * its status code and, when the body has the `id`, `name` and `unix_name`
   * fields, the profile they make.
   */
  datatype ProviderReply = ProviderReply(status: int, user: Option<WikidotProfile>)

  /**
   * The tail of `callback` once both accounts are known: look up or create
   * the Wikidot account, insert the link if absent, and render the success
   * page, whose message says whether the pair was already linked.
   */
  function LinkAccounts(db: Db, discord: DiscordAccount, user: WikidotProfile): (r: (Db, Response))
    requires discord in db.discords
    ensures r.1.SuccessPage?
    ensures r.1.message == AlreadyLinkedMessage <==> (discord.discordId, user.id) in LinkPairs(db)
    ensures r.1.discordName == discord.username && r.1.discordIconUrl == discord.avatar
    ensures r.1.wikidotIconUrl == AvatarUrl(user.id)
    ensures LinkPairs(r.0) == LinkPairs(db) + {(discord.discordId, user.id)}
    ensures WikidotIds(r.0) == WikidotIds(db) + {user.id}
    ensures user.id in WikidotIds(db) ==>
      && r.0.wikidots == db.wikidots
      && r.1.wikidotName == GetWikidotAccount(db, user.id).value.username
    ensures user.id !in WikidotIds(db) ==>
      && CreateWikidotAccount(db, user).Ok?
      && r.0.wikidots == CreateWikidotAccount(db, user).value.0.wikidots
      && r.1.wikidotName == user.username
    ensures db.links <= r.0.links && |r.0.links| <= |db.links| + 1
    ensures r.0.discords == db.discords && r.0.tokens == db.tokens
    ensures Valid(db) ==> Valid(r.0)
    ensures Valid(db) && (discord.discordId, user.id) in LinkPairs(db) ==> r.0 == db
  {
    var (db1, wikidot) := LookupOrCreateWikidot(db, user);
    assert DiscordIds(db1) == DiscordIds(db) && LinkPairs(db1) == LinkPairs(db);
    var (db2, link) := CreateLink(db1, discord, wikidot);
    assert Valid(db) ==> Valid(db2) by {
      if Valid(db) {
        LookupOrCreateWikidotValid(db, user);
        CreateLinkValid(db1, discord, wikidot);
      }
    }
    assert Valid(db) && (discord.discordId, user.id) in LinkPairs(db) ==> db1 == db by {
      if Valid(db) && (discord.discordId, user.id) in LinkPairs(db) {
        var l :| l in db.links && (l.discordId, l.wikidotId) == (discord.discordId, user.id);
      }
    }
    var message := if link.None? then AlreadyLinkedMessage else LinkedMessage;
    (db2, SuccessPage(message, discord.username, discord.avatar, wikidot.username, AvatarUrl(wikidot.wikidotId)))
  }

  /** The session holds a pending authorization whose state is the one the provider sent back. */
  predicate StateMatches(s: State, stateParam: string) {
    && s.session.auth.PyDict?
    && StateField in s.session.auth.items
    && s.session.auth.items[StateField] == PyStr(stateParam)
  }

  /**
   * `callback`. The guards run in the handler's order: no pending
   * authorization, a state that differs from the stored one, a provider
   * refusal, an unknown Discord account; each answers 400 and writes nothing.
   * A session value the handler cannot subscript, or a missing key, raises
   * and ends in a 500. The session is never cleared.
   */
  function Callback(s: State, code: string, stateParam: string, provider: (string, PyObj) -> ProviderReply): (r: (State, Response))
    ensures r.0.session == s.session
    ensures !r.1.SuccessPage? ==> r.0 == s
    ensures s.session.auth.PyNone? ==> r.1 == ErrorPage(400, InvalidSession)
    ensures s.session.auth.PyDict? && StateField in s.session.auth.items && s.session.auth.items[StateField] != PyStr(stateParam)
      ==> r.1 == ErrorPage(400, InvalidState)
    ensures !s.session.auth.PyNone? && !s.session.auth.PyDict? ==> r.1 == InternalError
    ensures r.1.SuccessPage? ==> CallbackAccepted(s, code, stateParam, provider)
    ensures r.1 == ErrorPage(400, InvalidToken)
        <==> && StateMatches(s, stateParam)
             && CodeChallengeMethodField in s.session.auth.items && CodeVerifierField in s.session.auth.items
             && provider(code, s.session.auth.items[CodeVerifierField]).status != 200
    ensures r.1 == ErrorPage(400, DiscordIdNotFound)
        <==> && StateMatches(s, stateParam)
             && var d := s.session.auth.items;
                && CodeChallengeMethodField in d && CodeVerifierField in d
                && provider(code, d[CodeVerifierField]).status == 200 && provider(code, d[CodeVerifierField]).user.Some?
                && DiscordIdField in d && d[DiscordIdField].PyInt? && d[DiscordIdField].i !in DiscordIds(s.db)
  {
    var auth := s.session.auth;
    if auth.PyNone? then (s, ErrorPage(400, InvalidSession))
    else if !auth.PyDict? || StateField !in auth.items then (s, InternalError)
    else if auth.items[StateField] != PyStr(stateParam) then (s, ErrorPage(400, InvalidState))
    else Exchange(s, auth.items, code, provider)
  }

  /**
   * The part of `callback` after the state check: read the verifier, ask the
   * provider, resolve the stored Discord id, and link.
   */
  function Exchange(s: State, d: map<string, PyObj>, code: string, provider: (string, PyObj) -> ProviderReply): (r: (State, Response))
    requires StateField in d
    ensures r.0.session == s.session
    ensures !r.1.SuccessPage? ==> r.0 == s
    ensures r.1.SuccessPage? ==>
      && AuthFieldNames <= d.Keys
      && provider(code, d[CodeVerifierField]).status == 200
      && provider(code, d[CodeVerifierField]).user.Some?
      && d[DiscordIdField].PyInt?
      && d[DiscordIdField].i in DiscordIds(s.db)
    ensures r.1.ErrorPage? ==> r.1.status == 400 && (r.1.errorCode == InvalidToken || r.1.errorCode == DiscordIdNotFound)
    ensures CodeChallengeMethodField !in d || CodeVerifierField !in d ==> r.1 == InternalError
    ensures r.1 == ErrorPage(400, InvalidToken)
        <==> CodeChallengeMethodField in d && CodeVerifierField in d && provider(code, d[CodeVerifierField]).status != 200
    ensures r.1 == ErrorPage(400, DiscordIdNotFound)
        <==> && CodeChallengeMethodField in d && CodeVerifierField in d
             && provider(code, d[CodeVerifierField]).status == 200 && provider(code, d[CodeVerifierField]).user.Some?
             && DiscordIdField in d && d[DiscordIdField].PyInt? && d[DiscordIdField].i !in DiscordIds(s.db)
    ensures r.1.SuccessPage? || r.1.ErrorPage? || r.1 == InternalError
  {
    if CodeChallengeMethodField !in d || CodeVerifierField !in d then (s, InternalError)
    else
      var reply := provider(code, d[CodeVerifierField]);
      if reply.status != 200 then (s, ErrorPage(400, InvalidToken))
      else if reply.user.None? || DiscordIdField !in d || !d[DiscordIdField].PyInt? then (s, InternalError)
      else LinkKnown(s, d[DiscordIdField].i, reply.user.value)
  }

  /** The Discord lookup of `callback`: an unknown id answers 400, a known one links. */
  function LinkKnown(s: State, discordId: int, user: WikidotProfile): (r: (State, Response))
    ensures r.0.session == s.session
    ensures r.1.SuccessPage? <==> discordId in DiscordIds(s.db)
    ensures !r.1.SuccessPage? ==> r == (s, ErrorPage(400, DiscordIdNotFound))
  {
    match GetDiscordAccount(s.db, discordId)
    case None => (s, ErrorPage(400, DiscordIdNotFound))
    case Some(discord) =>
      var (db1, page) := LinkAccounts(s.db, discord, user);
      (State(db1, s.session), page)
  }

  /**
   * When a callback links: the session holds a dict with all four pending
   * fields, the state matches, the provider answers 200 with a profile, and
   * the stored Discord id names an existing account.
   */
  predicate CallbackAccepted(s: State, code: string, stateParam: string, provider: (string, PyObj) -> ProviderReply) {
    && s.session.auth.PyDict?
    && var d := s.session.auth.items;
       && AuthFieldNames <= d.Keys
       && d[StateField] == PyStr(stateParam)
       && provider(code, d[CodeVerifierField]).status == 200
       && provider(code, d[CodeVerifierField]).user.Some?
       && d[DiscordIdField].PyInt?
       && d[DiscordIdField].i in DiscordIds(s.db)
  }

  /** The callback answers 200 exactly when it is accepted, and then it shows a success page. */
  lemma CallbackSucceedsIff(s: State, code: string, stateParam: string, provider: (string, PyObj) -> ProviderReply)
    ensures StatusCode(Callback(s, code, stateParam, provider).1) == 200 <==> CallbackAccepted(s, code, stateParam, provider)
    ensures CallbackAccepted(s, code, stateParam, provider) ==> Callback(s, code, stateParam, provider).1.SuccessPage?
  {
  }

  /** Every answer of the callback is one of 200, 400 or 500. */
  lemma CallbackStatuses(s: State, code: string, stateParam: string, provider: (string, PyObj) -> ProviderReply)
    ensures StatusCode(Callback(s, code, stateParam, provider).1) in {200, 400, 500}
    ensures StatusCode(Callback(s, code, stateParam, provider).1) == 400 ==>
      Callback(s, code, stateParam, provider).1.ErrorPage?
      && Callback(s, code, stateParam, provider).1.errorCode in {InvalidSession, InvalidState, InvalidToken, DiscordIdNotFound}
  {
  }

  /** The callback keeps every store invariant. */
  lemma CallbackKeepsValid(s: State, code: string, stateParam: string, provider: (string, PyObj) -> ProviderReply)
    requires Valid(s.db)
    ensures Valid(Callback(s, code, stateParam, provider).0.db)
  {
  }

  /**
   * Replaying a successful callback (the session is never cleared, so the
   * browser can) links nothing new: the second answer is "already linked"
   * and the store is left as the first call left it.
   */
  lemma CallbackReplay(s: State, code: string, stateParam: string, provider: (string, PyObj) -> ProviderReply)
    requires Valid(s.db)
    requires CallbackAccepted(s, code, stateParam, provider)
    ensures var s1 := Callback(s, code, stateParam, provider).0;
            && Callback(s1, code, stateParam, provider).1.SuccessPage?
            && Callback(s1, code, stateParam, provider).1.message == AlreadyLinkedMessage
            && Callback(s1, code, stateParam, provider).0 == s1
  {
    var s1 := Callback(s, code, stateParam, provider).0;
    CallbackSucceedsIff(s, code, stateParam, provider);
    CallbackKeepsValid(s, code, stateParam, provider);
    var d := s.session.auth.items;
    var user := provider(code, d[CodeVerifierField]).user.value;
    var (db1, wikidot) := LookupOrCreateWikidot(s.db, user);
    assert DiscordIds(db1) == DiscordIds(s.db);
    assert DiscordIds(s1.db) == DiscordIds(s.db);
    CallbackSucceedsIff(s1, code, stateParam, provider);
    var discord := GetDiscordAccount(s1.db, d[DiscordIdField].i).value;
    var (db2, wikidot2) := LookupOrCreateWikidot(s1.db, user);
    assert db2 == s1.db;
  }

  // ---------------------------------------------------------------------------
  // The whole flow
  // ---------------------------------------------------------------------------

  /**
   * `/auth` followed by the provider's return to `/callback` with the state
   * it was given: when the provider approves, the account the token names is
   * linked to the Wikidot account the provider reports.
   */
  lemma AuthThenCallback(cfg: Config, s: State, token: string, now: Time, verifier: string, sha256: string -> Digest,
                         code: string, provider: (string, PyObj) -> ProviderReply)
    requires Valid(s.db)
    requires GetDiscordAccountFromToken(s.db, token, now).Some?
    requires provider(code, PyStr(verifier)).status == 200 && provider(code, PyStr(verifier)).user.Some?
    ensures var s2 := Auth(cfg, s, token, now, verifier, sha256).0;
            var s3 := Callback(s2, code, token, provider).0;
            && Callback(s2, code, token, provider).1.SuccessPage?
            && (GetDiscordAccountFromToken(s.db, token, now).value.discordId, provider(code, PyStr(verifier)).user.value.id) in LinkPairs(s3.db)
            && Valid(s3.db)
  {
    var owner := GetDiscordAccountFromToken(s.db, token, now).value;
    assert owner.discordId in DiscordIds(s.db);
    var s2 := State(s.db, Session(PyDict(AuthFields(SessionAuth(owner.discordId, verifier, "S256", token)))));
    AuthStoresPending(cfg, s, token, now, verifier, sha256);
    PendingAuthAccepted(s2, owner.discordId, verifier, token, code, provider);
    AcceptedCallbackLinks(s2, code, token, provider);
  }

  /** On a resolving token, `/auth` leaves the database alone and stores the pending authorization as a plain dict. */
  lemma AuthStoresPending(cfg: Config, s: State, token: string, now: Time, verifier: string, sha256: string -> Digest)
    requires GetDiscordAccountFromToken(s.db, token, now).Some?
    ensures var owner := GetDiscordAccountFromToken(s.db, token, now).value;
            Auth(cfg, s, token, now, verifier, sha256).0
              == State(s.db, Session(PyDict(AuthFields(SessionAuth(owner.discordId, verifier, "S256", token)))))
  {
  }

  /** An accepted callback shows a success page, links the pair and keeps the store consistent. */
  lemma AcceptedCallbackLinks(s: State, code: string, stateParam: string, provider: (string, PyObj) -> ProviderReply)
    requires Valid(s.db)
    requires CallbackAccepted(s, code, stateParam, provider)
    ensures var d := s.session.auth.items;
            var r := Callback(s, code, stateParam, provider);
            && r.1.SuccessPage?
            && (d[DiscordIdField].i, provider(code, d[CodeVerifierField]).user.value.id) in LinkPairs(r.0.db)
            && Valid(r.0.db)
  {
    CallbackSucceedsIff(s, code, stateParam, provider);
    CallbackKeepsValid(s, code, stateParam, provider);
    CallbackLinksPair(s, code, stateParam, provider);
  }

  /** The pending authorization `/auth` stores is accepted when its state comes back and the provider approves. */
  lemma PendingAuthAccepted(s: State, discordId: int, verifier: string, token: string,
                            code: string, provider: (string, PyObj) -> ProviderReply)
    requires s.session.auth == PyDict(AuthFields(SessionAuth(discordId, verifier, "S256", token)))
    requires discordId in DiscordIds(s.db)
    requires provider(code, PyStr(verifier)).status == 200 && provider(code, PyStr(verifier)).user.Some?
    ensures CallbackAccepted(s, code, token, provider)
  {
  }

  /** A successful callback links the stored Discord id with the provider's Wikidot id. */
  lemma CallbackLinksPair(s: State, code: string, stateParam: string, provider: (string, PyObj) -> ProviderReply)
    requires CallbackAccepted(s, code, stateParam, provider)
    ensures var d := s.session.auth.items;
            var r := Callback(s, code, stateParam, provider);
            var pair := (d[DiscordIdField].i, provider(code, d[CodeVerifierField]).user.value.id);
            && LinkPairs(r.0.db) == LinkPairs(s.db) + {pair}
            && (r.1.message == AlreadyLinkedMessage <==> pair in LinkPairs(s.db))
            && r.0.db.discords == s.db.discords && r.0.db.tokens == s.db.tokens
            && s.db.links <= r.0.db.links
            && (pair.1 in WikidotIds(s.db) ==> r.0.db.wikidots == s.db.wikidots)
            && (pair.1 !in WikidotIds(s.db) ==>
                  r.1.wikidotName == provider(code, d[CodeVerifierField]).user.value.username)
  {
  }

  /**
   * End to end: a bot starts a flow for a Discord profile; within ten minutes
   * the user opens `/auth` with the token from the URL, and the provider
   * comes back to `/callback` with that state and approves. Then the two
   * accounts are linked and the store stays consistent.
   */
  lemma LinkingFlow(cfg: Config, s: State, authorization: Option<string>, p: DiscordProfile, started: Time, newToken: string,
                    now: Time, verifier: string, sha256: string -> Digest, code: string,
                    provider: (string, PyObj) -> ProviderReply)
    requires Valid(s.db)
    requires CheckApiKey(authorization, cfg.apiKey) && newToken !in TokenStrings(s.db)
    requires started <= now <= started + TokenLifetime
    requires provider(code, PyStr(verifier)).status == 200 && provider(code, PyStr(verifier)).user.Some?
    ensures var s1 := FlowStart(cfg, s, authorization, p, started, newToken).0;
            var s2 := Auth(cfg, s1, newToken, now, verifier, sha256).0;
            var s3 := Callback(s2, code, newToken, provider).0;
            && Auth(cfg, s1, newToken, now, verifier, sha256).1.Redirect?
            && Callback(s2, code, newToken, provider).1.SuccessPage?
            && (p.id, provider(code, PyStr(verifier)).user.value.id) in LinkPairs(s3.db)
            && Valid(s3.db)
  {
    var s1 := FlowStart(cfg, s, authorization, p, started, newToken).0;
    StartFlowValid(s.db, p, started, newToken);
    StartFlowTokenResolves(s.db, p, started, newToken, now);
    AuthThenCallback(cfg, s1, newToken, now, verifier, sha256, code, provider);
  }
}
