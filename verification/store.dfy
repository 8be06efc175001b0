/**
 * The relational store of the linker: the four tables of the ORM models
 * (Discord accounts, Wikidot accounts, links between them and link-request
 * tokens) as one immutable value, the invariants the schema and the code keep
 * on it, and the `IOUtil` operations as pure state transformers.
 *
 * Rows are kept in insertion order; a query's `.first()` is the first matching
 * row. Rows are never deleted, and the model numbers surrogate primary keys
 * 1, 2, ... in insertion order. A database sequence also spends a value on
 * every failed insert, so real ids may skip; no contract here depends on the
 * exact values, only on their being distinct. Server-side `created_at` /
 * `updated_at` defaults are not modelled except for a token's `created_at`,
 * which the code sets itself and later compares against.
 */
module Store {
  import opened Common

  /** Instants on the server's clock, in microseconds (Python `datetime` resolution). */
  type Time = int

  const Minute: int := 60 * 1000000

  /** How long a link-request token resolves after it was created. */
  const TokenLifetime: int := 10 * Minute

  /** A row of `discord_accounts`; `discordId` is the platform's own id. */
  datatype DiscordAccount = DiscordAccount(id: nat, discordId: int, username: string, avatar: string)

  /** A row of `wikidot_accounts`; `wikidotId` is the platform's own id. */
  datatype WikidotAccount = WikidotAccount(id: nat, wikidotId: int, username: string, unixname: string)

  /** A row of `linked_accounts`, pointing at both accounts by their platform ids. */
  datatype LinkedAccount = LinkedAccount(id: nat, discordId: int, wikidotId: int)

  /** A row of `link_request_tokens`, pointing at its owner by surrogate id. */
  datatype LinkRequestToken = LinkRequestToken(id: nat, token: string, discordAccountId: nat, createdAt: Time)

  datatype Db = Db(
    discords: seq<DiscordAccount>,
    wikidots: seq<WikidotAccount>,
    links: seq<LinkedAccount>,
    tokens: seq<LinkRequestToken>)

  const EmptyDb: Db := Db([], [], [], [])

  /** The account data a bot sends (`DiscordAccountSchema`). */
  datatype DiscordProfile = DiscordProfile(id: int, username: string, avatar: string)

  /** The account data the identity provider returns (`WikidotAccountSchema`). */
  datatype WikidotProfile = WikidotProfile(id: int, username: string, unixname: string)

  /** A commit refused by a `unique=True` column. */
  datatype StoreError = UniqueViolation

  function DiscordIds(db: Db): set<int> {
    set a | a in db.discords :: a.discordId
  }

  function DiscordRowIds(db: Db): set<nat> {
    set a | a in db.discords :: a.id
  }

  function WikidotIds(db: Db): set<int> {
    set w | w in db.wikidots :: w.wikidotId
  }

  function TokenStrings(db: Db): set<string> {
    set t | t in db.tokens :: t.token
  }

  function LinkPairs(db: Db): set<(int, int)> {
    set l | l in db.links :: (l.discordId, l.wikidotId)
  }

  // ---------------------------------------------------------------------------
  // Invariants
  // ---------------------------------------------------------------------------

  predicate SerialIds(db: Db) {
    && (forall i :: 0 <= i < |db.discords| ==> db.discords[i].id == i + 1)
    && (forall i :: 0 <= i < |db.wikidots| ==> db.wikidots[i].id == i + 1)
    && (forall i :: 0 <= i < |db.links| ==> db.links[i].id == i + 1)
    && (forall i :: 0 <= i < |db.tokens| ==> db.tokens[i].id == i + 1)
  }

  /** `discord_id` is declared `unique=True`. */
  predicate UniqueDiscordIds(db: Db) {
    forall i, j :: 0 <= i < j < |db.discords| ==> db.discords[i].discordId != db.discords[j].discordId
  }

  /** `wikidot_id` is declared `unique=True`. */
  predicate UniqueWikidotIds(db: Db) {
    forall i, j :: 0 <= i < j < |db.wikidots| ==> db.wikidots[i].wikidotId != db.wikidots[j].wikidotId
  }

  /** `token` is declared `unique=True`. */
  predicate UniqueTokens(db: Db) {
    forall i, j :: 0 <= i < j < |db.tokens| ==> db.tokens[i].token != db.tokens[j].token
  }

  /**
   * At most one link per (Discord, Wikidot) pair. The schema does not declare
   * this; only the existence check in `create_link` maintains it.
   */
  predicate UniqueLinkPairs(db: Db) {
    forall i, j :: 0 <= i < j < |db.links| ==>
      (db.links[i].discordId, db.links[i].wikidotId) != (db.links[j].discordId, db.links[j].wikidotId)
  }

  /** The foreign keys of `linked_accounts` point at existing accounts. */
  predicate LinksResolve(db: Db) {
    forall l :: l in db.links ==> l.discordId in DiscordIds(db) && l.wikidotId in WikidotIds(db)
  }

  /** The foreign key of `link_request_tokens` points at an existing Discord account. */
  predicate TokensResolve(db: Db) {
    forall t :: t in db.tokens ==> t.discordAccountId in DiscordRowIds(db)
  }

  predicate Valid(db: Db) {
    && SerialIds(db)
    && UniqueDiscordIds(db)
    && UniqueWikidotIds(db)
    && UniqueTokens(db)
    && UniqueLinkPairs(db)
    && LinksResolve(db)
    && TokensResolve(db)
  }

  lemma EmptyDbValid()
    ensures Valid(EmptyDb)
    ensures DiscordIds(EmptyDb) == {} && LinkPairs(EmptyDb) == {}
  {
  }

  // ---------------------------------------------------------------------------
  // Lookups
  // ---------------------------------------------------------------------------

  /** `IOUtil.get_discord_account`: the first row with this platform id. */
  function GetDiscordAccount(db: Db, discordId: int): (r: Option<DiscordAccount>)
    ensures r.Some? ==> r.value in db.discords && r.value.discordId == discordId
    ensures r.None? <==> discordId !in DiscordIds(db)
  {
    match FirstIndex(db.discords, (a: DiscordAccount) => a.discordId == discordId)
    case None => None
    case Some(i) => Some(db.discords[i])
  }

  /** `IOUtil.get_wikidot_account`: the first row with this platform id. */
  function GetWikidotAccount(db: Db, wikidotId: int): (r: Option<WikidotAccount>)
    ensures r.Some? ==> r.value in db.wikidots && r.value.wikidotId == wikidotId
    ensures r.None? <==> wikidotId !in WikidotIds(db)
  {
    match FirstIndex(db.wikidots, (w: WikidotAccount) => w.wikidotId == wikidotId)
    case None => None
    case Some(i) => Some(db.wikidots[i])
  }

  /** Under the uniqueness invariant the lookup returns THE row with that id. */
  lemma GetDiscordAccountFindsRow(db: Db, a: DiscordAccount)
    requires UniqueDiscordIds(db)
    requires a in db.discords
    ensures GetDiscordAccount(db, a.discordId) == Some(a)
  {
    var r := GetDiscordAccount(db, a.discordId).value;
    var i :| 0 <= i < |db.discords| && db.discords[i] == a;
    var j :| 0 <= j < |db.discords| && db.discords[j] == r;
    assert i == j;
  }

  /** Under the uniqueness invariant the lookup returns THE row with that id. */
  lemma GetWikidotAccountFindsRow(db: Db, w: WikidotAccount)
    requires UniqueWikidotIds(db)
    requires w in db.wikidots
    ensures GetWikidotAccount(db, w.wikidotId) == Some(w)
  {
    var r := GetWikidotAccount(db, w.wikidotId).value;
    var i :| 0 <= i < |db.wikidots| && db.wikidots[i] == w;
    var j :| 0 <= j < |db.wikidots| && db.wikidots[j] == r;
    assert i == j;
  }

  // ---------------------------------------------------------------------------
  // Account creation
  // ---------------------------------------------------------------------------

  /** The row `db.add(DiscordAccount(...)); db.commit()` appends. */
  function InsertDiscord(db: Db, p: DiscordProfile): (r: (Db, DiscordAccount))
  {
    var acc := DiscordAccount(|db.discords| + 1, p.id, p.username, p.avatar);
    (db.(discords := db.discords + [acc]), acc)
  }

  /**
   * `IOUtil.create_discord_account`: one new row carrying the profile's
   * fields; the commit fails when the platform id is already present.
   */
  function CreateDiscordAccount(db: Db, p: DiscordProfile): (r: Result<(Db, DiscordAccount), StoreError>)
    ensures r.Err? <==> p.id in DiscordIds(db)
    ensures r.Ok? ==> r.value.1.discordId == p.id && r.value.1.username == p.username && r.value.1.avatar == p.avatar
    ensures r.Ok? ==> r.value.0.discords == db.discords + [r.value.1]
    ensures r.Ok? ==> r.value.0 == db.(discords := r.value.0.discords)
    ensures r.Ok? ==> DiscordIds(r.value.0) == DiscordIds(db) + {p.id}
  {
    if p.id in DiscordIds(db) then Err(UniqueViolation) else Ok(InsertDiscord(db, p))
  }

  /** The row `db.add(WikidotAccount(...)); db.commit()` appends. */
  function InsertWikidot(db: Db, p: WikidotProfile): (r: (Db, WikidotAccount))
  {
    var acc := WikidotAccount(|db.wikidots| + 1, p.id, p.username, p.unixname);
    (db.(wikidots := db.wikidots + [acc]), acc)
  }

  /**
   * `IOUtil.create_wikidot_account`: one new row carrying the profile's
   * fields; the commit fails when the platform id is already present.
   */
  function CreateWikidotAccount(db: Db, p: WikidotProfile): (r: Result<(Db, WikidotAccount), StoreError>)
    ensures r.Err? <==> p.id in WikidotIds(db)
    ensures r.Ok? ==> r.value.1.wikidotId == p.id && r.value.1.username == p.username && r.value.1.unixname == p.unixname
    ensures r.Ok? ==> r.value.0.wikidots == db.wikidots + [r.value.1]
    ensures r.Ok? ==> r.value.0 == db.(wikidots := r.value.0.wikidots)
    ensures r.Ok? ==> WikidotIds(r.value.0) == WikidotIds(db) + {p.id}
  {
    if p.id in WikidotIds(db) then Err(UniqueViolation) else Ok(InsertWikidot(db, p))
  }

  lemma InsertDiscordValid(db: Db, p: DiscordProfile)
    requires Valid(db)
    requires p.id !in DiscordIds(db)
    ensures Valid(InsertDiscord(db, p).0)
  {
    var db' := InsertDiscord(db, p).0;
    assert DiscordIds(db') == DiscordIds(db) + {p.id};
    assert DiscordRowIds(db) <= DiscordRowIds(db');
    forall i, j | 0 <= i < j < |db'.discords|
      ensures db'.discords[i].discordId != db'.discords[j].discordId
    {
      if j == |db.discords| {
        assert db.discords[i] in db.discords;
      }
    }
  }

  lemma InsertWikidotValid(db: Db, p: WikidotProfile)
    requires Valid(db)
    requires p.id !in WikidotIds(db)
    ensures Valid(InsertWikidot(db, p).0)
  {
    var db' := InsertWikidot(db, p).0;
    assert WikidotIds(db') == WikidotIds(db) + {p.id};
    forall i, j | 0 <= i < j < |db'.wikidots|
      ensures db'.wikidots[i].wikidotId != db'.wikidots[j].wikidotId
    {
      if j == |db.wikidots| {
        assert db.wikidots[i] in db.wikidots;
      }
    }
  }

  /** Account creation keeps every store invariant. */
  lemma CreateAccountsKeepValid(db: Db, d: DiscordProfile, w: WikidotProfile)
    requires Valid(db)
    ensures CreateDiscordAccount(db, d).Ok? ==> Valid(CreateDiscordAccount(db, d).value.0)
    ensures CreateWikidotAccount(db, w).Ok? ==> Valid(CreateWikidotAccount(db, w).value.0)
  {
    if d.id !in DiscordIds(db) {
      InsertDiscordValid(db, d);
    }
    if w.id !in WikidotIds(db) {
      InsertWikidotValid(db, w);
    }
  }

  /** Lookup-or-create of the Wikidot account, as the callback does it. */
  function LookupOrCreateWikidot(db: Db, p: WikidotProfile): (r: (Db, WikidotAccount))
    ensures r.1 in r.0.wikidots && r.1.wikidotId == p.id
    ensures r.0 == db.(wikidots := r.0.wikidots)
    ensures WikidotIds(r.0) == WikidotIds(db) + {p.id}
    ensures p.id in WikidotIds(db) ==> r.0 == db && Some(r.1) == GetWikidotAccount(db, p.id)
    ensures p.id !in WikidotIds(db) ==> CreateWikidotAccount(db, p) == Ok(r)
  {
    match GetWikidotAccount(db, p.id)
    case Some(w) => (db, w)
    case None => InsertWikidot(db, p)
  }

  lemma LookupOrCreateWikidotValid(db: Db, p: WikidotProfile)
    requires Valid(db)
    ensures Valid(LookupOrCreateWikidot(db, p).0)
  {
    if p.id !in WikidotIds(db) {
      InsertWikidotValid(db, p);
    }
  }

  // ---------------------------------------------------------------------------
  // Links
  // ---------------------------------------------------------------------------

  /**
   * `IOUtil.create_link`: insert-if-absent. When a row for the pair exists the
   * store is left alone and `None` comes back; otherwise exactly one row is
   * appended and returned. The foreign keys require both accounts to exist.
   */
  function CreateLink(db: Db, discord: DiscordAccount, wikidot: WikidotAccount): (r: (Db, Option<LinkedAccount>))
    requires discord.discordId in DiscordIds(db) && wikidot.wikidotId in WikidotIds(db)
    ensures (discord.discordId, wikidot.wikidotId) in LinkPairs(db) ==> r == (db, None)
    ensures (discord.discordId, wikidot.wikidotId) !in LinkPairs(db) ==>
      && r.1.Some?
      && r.1.value.discordId == discord.discordId
      && r.1.value.wikidotId == wikidot.wikidotId
      && r.0 == db.(links := db.links + [r.1.value])
    ensures LinkPairs(r.0) == LinkPairs(db) + {(discord.discordId, wikidot.wikidotId)}
    ensures r.0 == db.(links := r.0.links) && db.links <= r.0.links && |r.0.links| <= |db.links| + 1
  {
    match FirstIndex(db.links, (l: LinkedAccount) => l.discordId == discord.discordId && l.wikidotId == wikidot.wikidotId)
    case Some(i) =>
      assert db.links[i] in db.links;
      (db, None)
    case None =>
      assert (discord.discordId, wikidot.wikidotId) !in LinkPairs(db) by {
        forall l | l in db.links
          ensures (l.discordId, l.wikidotId) != (discord.discordId, wikidot.wikidotId)
        {
          var k :| 0 <= k < |db.links| && db.links[k] == l;
        }
      }
      var link := LinkedAccount(|db.links| + 1, discord.discordId, wikidot.wikidotId);
      (db.(links := db.links + [link]), Some(link))
  }

  /** `create_link` keeps every invariant, in particular one row per pair. */
  lemma CreateLinkValid(db: Db, discord: DiscordAccount, wikidot: WikidotAccount)
    requires Valid(db)
    requires discord.discordId in DiscordIds(db) && wikidot.wikidotId in WikidotIds(db)
    ensures Valid(CreateLink(db, discord, wikidot).0)
  {
    var db' := CreateLink(db, discord, wikidot).0;
    if (discord.discordId, wikidot.wikidotId) !in LinkPairs(db) {
      assert DiscordIds(db') == DiscordIds(db) && WikidotIds(db') == WikidotIds(db);
      forall i, j | 0 <= i < j < |db'.links|
        ensures (db'.links[i].discordId, db'.links[i].wikidotId) != (db'.links[j].discordId, db'.links[j].wikidotId)
      {
        if j == |db.links| {
          assert db.links[i] in db.links;
        }
      }
    }
  }

  /**
   * Two successive `create_link` calls for the same pair: the first may insert
   * a row, the second always answers `None` and writes nothing.
   */
  lemma {:induction false} CreateLinkTwice(db: Db, discord: DiscordAccount, wikidot: WikidotAccount)
    requires discord.discordId in DiscordIds(db) && wikidot.wikidotId in WikidotIds(db)
    ensures var (db1, _) := CreateLink(db, discord, wikidot);
            && discord.discordId in DiscordIds(db1) && wikidot.wikidotId in WikidotIds(db1)
            && CreateLink(db1, discord, wikidot) == (db1, None)
            && |db1.links| <= |db.links| + 1
  {
    var (db1, _) := CreateLink(db, discord, wikidot);
    assert DiscordIds(db1) == DiscordIds(db) && WikidotIds(db1) == WikidotIds(db);
  }

  // ---------------------------------------------------------------------------
  // Link-request tokens
  // ---------------------------------------------------------------------------

  /** The row matches `token == ... AND created_at >= now - 10 minutes`. */
  predicate Live(t: LinkRequestToken, token: string, now: Time) {
    t.token == token && t.createdAt >= now - TokenLifetime
  }

  /**
   * `IOUtil.get_discord_account_from_token`: the owner of the first token row
   * with exactly this string that is at most ten minutes old (inclusive).
   */
  function GetDiscordAccountFromToken(db: Db, token: string, now: Time): (r: Option<DiscordAccount>)
    ensures r.Some? ==> r.value in db.discords
    ensures r.Some? ==> exists t :: t in db.tokens && Live(t, token, now) && t.discordAccountId == r.value.id
    ensures (forall t :: t in db.tokens ==> !Live(t, token, now)) ==> r.None?
  {
    match FirstIndex(db.tokens, (t: LinkRequestToken) => Live(t, token, now))
    case None => None
    case Some(i) =>
      assert db.tokens[i] in db.tokens;
      match FirstIndex(db.discords, (a: DiscordAccount) => a.id == db.tokens[i].discordAccountId)
      case None => None
      case Some(j) => Some(db.discords[j])
  }

  /**
   * In a consistent store a token resolves exactly when a live row for it
   * exists, and it resolves to that row's owner.
   */
  lemma TokenResolvesIffLive(db: Db, token: string, now: Time)
    requires Valid(db)
    ensures GetDiscordAccountFromToken(db, token, now).Some? <==> exists t :: t in db.tokens && Live(t, token, now)
  {
    if t :| t in db.tokens && Live(t, token, now) {
      var i := FirstIndex(db.tokens, (t: LinkRequestToken) => Live(t, token, now)).value;
      var owner := db.tokens[i].discordAccountId;
      assert db.tokens[i] in db.tokens;
      assert owner in DiscordRowIds(db);
      var a :| a in db.discords && a.id == owner;
      var k :| 0 <= k < |db.discords| && db.discords[k] == a;
      assert FirstIndex(db.discords, (a: DiscordAccount) => a.id == owner).Some?;
    }
  }

  /** A token row resolves to the account its foreign key names. */
  lemma TokenResolvesToOwner(db: Db, t: LinkRequestToken, now: Time)
    requires Valid(db)
    requires t in db.tokens && now <= t.createdAt + TokenLifetime
    ensures GetDiscordAccountFromToken(db, t.token, now).Some?
    ensures GetDiscordAccountFromToken(db, t.token, now).value.id == t.discordAccountId
  {
    TokenResolvesIffLive(db, t.token, now);
    var r := GetDiscordAccountFromToken(db, t.token, now).value;
    var t' :| t' in db.tokens && Live(t', t.token, now) && t'.discordAccountId == r.id;
    var i :| 0 <= i < |db.tokens| && db.tokens[i] == t;
    var j :| 0 <= j < |db.tokens| && db.tokens[j] == t';
    assert i == j;
  }

  /**
   * The expiry boundary is inclusive: a token still resolves exactly ten
   * minutes after its creation and stops resolving one microsecond later.
   */
  lemma TokenExpiryBoundary(db: Db, t: LinkRequestToken)
    requires Valid(db)
    requires t in db.tokens
    ensures GetDiscordAccountFromToken(db, t.token, t.createdAt + TokenLifetime).Some?
    ensures GetDiscordAccountFromToken(db, t.token, t.createdAt + TokenLifetime + 1).None?
  {
    TokenResolvesToOwner(db, t, t.createdAt + TokenLifetime);
    var later := t.createdAt + TokenLifetime + 1;
    forall t' | t' in db.tokens
      ensures !Live(t', t.token, later)
    {
      if t'.token == t.token {
        var i :| 0 <= i < |db.tokens| && db.tokens[i] == t;
        var j :| 0 <= j < |db.tokens| && db.tokens[j] == t';
        assert i == j;
      }
    }
  }

  // ---------------------------------------------------------------------------
  // Starting a flow
  // ---------------------------------------------------------------------------

  /** Lookup-or-create of the Discord account, as `start_flow` begins. */
  function LookupOrCreateDiscord(db: Db, p: DiscordProfile): (r: (Db, DiscordAccount))
    ensures r.1 in r.0.discords && r.1.discordId == p.id
    ensures p.id in DiscordIds(db) ==> r.0 == db
    ensures p.id !in DiscordIds(db) ==> CreateDiscordAccount(db, p) == Ok(r)
  {
    match GetDiscordAccount(db, p.id)
    case Some(a) => (db, a)
    case None => InsertDiscord(db, p)
  }

  /**
   * `IOUtil.start_flow`: find or create the Discord account, then append a
   * token row owned by it, created `now`. `newToken` stands for the value of
   * `secrets.token_urlsafe(32)`. Should it collide with a stored token the
   * commit fails, after the account creation has already been committed.
   */
  function StartFlow(db: Db, p: DiscordProfile, now: Time, newToken: string): (r: (Db, Result<string, StoreError>))
    ensures r.0.wikidots == db.wikidots && r.0.links == db.links
    ensures db.discords <= r.0.discords && db.tokens <= r.0.tokens
    ensures DiscordIds(r.0) == DiscordIds(db) + {p.id}
    ensures p.id in DiscordIds(db) ==> r.0.discords == db.discords
    ensures p.id !in DiscordIds(db) ==> |r.0.discords| == |db.discords| + 1
    ensures p.id !in DiscordIds(db) ==>
      && CreateDiscordAccount(db, p).Ok?
      && r.0.discords == CreateDiscordAccount(db, p).value.0.discords
    ensures r.1.Err? <==> newToken in TokenStrings(db)
    ensures r.1.Err? ==> r.0.tokens == db.tokens
    ensures r.1.Ok? ==>
      && r.1.value == newToken
      && |r.0.tokens| == |db.tokens| + 1
      && var t := r.0.tokens[|db.tokens|];
         t.token == newToken && t.createdAt == now
         && (exists a :: a in r.0.discords && a.id == t.discordAccountId && a.discordId == p.id)
  {
    var (db1, acc) := LookupOrCreateDiscord(db, p);
    assert DiscordIds(db1) == DiscordIds(db) + {p.id};
    if newToken in TokenStrings(db1) then
      (db1, Err(UniqueViolation))
    else
      var t := LinkRequestToken(|db1.tokens| + 1, newToken, acc.id, now);
      (db1.(tokens := db1.tokens + [t]), Ok(newToken))
  }

  /** `start_flow` keeps every store invariant. */
  lemma StartFlowValid(db: Db, p: DiscordProfile, now: Time, newToken: string)
    requires Valid(db)
    ensures Valid(StartFlow(db, p, now, newToken).0)
  {
    var (db1, acc) := LookupOrCreateDiscord(db, p);
    if p.id !in DiscordIds(db) {
      InsertDiscordValid(db, p);
    }
    if newToken !in TokenStrings(db1) {
      AppendTokenValid(db1, LinkRequestToken(|db1.tokens| + 1, newToken, acc.id, now));
    }
  }

  /** Appending a token row with the next id, a fresh string and an existing owner keeps every invariant. */
  lemma AppendTokenValid(db: Db, t: LinkRequestToken)
    requires Valid(db)
    requires t.id == |db.tokens| + 1 && t.token !in TokenStrings(db) && t.discordAccountId in DiscordRowIds(db)
    ensures Valid(db.(tokens := db.tokens + [t]))
  {
    var db2 := db.(tokens := db.tokens + [t]);
    assert DiscordRowIds(db2) == DiscordRowIds(db);
    forall i, j | 0 <= i < j < |db2.tokens|
      ensures db2.tokens[i].token != db2.tokens[j].token
    {
      if j == |db.tokens| {
        assert db.tokens[i] in db.tokens;
      }
    }
  }

  /**
   * The token `start_flow` hands out resolves, for the next ten minutes, to
   * the one Discord account carrying the profile's id.
   */
  lemma StartFlowTokenResolves(db: Db, p: DiscordProfile, now: Time, newToken: string, later: Time)
    requires Valid(db)
    requires StartFlow(db, p, now, newToken).1.Ok?
    requires now <= later <= now + TokenLifetime
    ensures var db' := StartFlow(db, p, now, newToken).0;
            && GetDiscordAccountFromToken(db', newToken, later).Some?
            && GetDiscordAccountFromToken(db', newToken, later).value.discordId == p.id
  {
    var db' := StartFlow(db, p, now, newToken).0;
    StartFlowValid(db, p, now, newToken);
    var t := db'.tokens[|db.tokens|];
    assert t in db'.tokens;
    TokenResolvesToOwner(db', t, later);
    var r := GetDiscordAccountFromToken(db', newToken, later).value;
    var a :| a in db'.discords && a.id == t.discordAccountId && a.discordId == p.id;
    SerialIdNamesOneAccount(db', a, r);
  }

  /** Under serial ids, the row id names exactly one Discord account. */
  lemma SerialIdNamesOneAccount(db: Db, a: DiscordAccount, b: DiscordAccount)
    requires SerialIds(db)
    requires a in db.discords && b in db.discords && a.id == b.id
    ensures a == b
  {
    var i :| 0 <= i < |db.discords| && db.discords[i] == a;
    var j :| 0 <= j < |db.discords| && db.discords[j] == b;
  }

  /**
   * Repeating `start_flow` for the same profile never adds a second account:
   * the second call leaves the accounts exactly as the first one left them.
   */
  lemma StartFlowTwiceOneAccount(db: Db, p: DiscordProfile, now1: Time, newToken1: string, now2: Time, newToken2: string)
    ensures var db1 := StartFlow(db, p, now1, newToken1).0;
            StartFlow(db1, p, now2, newToken2).0.discords == db1.discords
  {
  }
}
