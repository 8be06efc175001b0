# linker-web account linking, in Dafny

This project models the core of linker-web, a small web service that links a
Discord account to a Wikidot account.

- A Discord bot calls `POST /v1/start` with the user's Discord profile. The
  service records the account and issues a link-request token valid for ten
  minutes; it is not consumed on use. It answers with a URL carrying that
  token.
- The user opens `GET /v1/auth?token=…`. The service resolves the token
  (valid for ten minutes) and stores a pending authorization in the browser
  session. It then redirects the user to the Wikidot identity provider with
  an OAuth2 PKCE challenge (S256).
- The provider sends the user back to `GET /v1/callback?code=…&state=…`.
  The service checks the session and the state and asks the provider who
  the user is. It then looks up or creates the Wikidot account and links it
  to the Discord account, at most once per pair.
- Sessions live in a key-value store as JSON. Schema objects are tagged with
  `_cls_name_` and `__value__`.
- A separate backup service dumps the database to object storage. It uses
  keys `{dir}/backup_%Y%m%d_%H%M%S.sql`, lists them newest first for restore,
  and deletes the ones older than the retention period.

Modules (one file each):

- `Common` (`common.dfy`): `Option`, `Result`, and Python's `str.split`, `str.rstrip` and `str(int)`. It also has `.first()` over rows and zero-padded digit fields.
- `Base64Url` and `Pkce` (`pkce.dfy`): URL-safe base64 as in section 5 of RFC 4648, and `create_code_challenge`.
- `ApiKey` (`api_key.dfy`): `check_api_key`.
- `Store` (`store.dfy`): the four tables of `models.py` as one immutable value, the invariants the schema and code keep, and every `IOUtil` operation of `util.py` that the linking flow uses.
- `SessionSchemas` and `SessionStore` (`session_schemas.dfy`, `session_store.dfy`): the session dataclasses, `SessionEncoder` and `RedisCrud`.
- `Handlers` (`handlers.dfy`): `flow_start`, `auth` and `callback` as transitions over (database, session) that also produce a response.
- `Backups` (`backups.dfy`): the pure logic of `db/dump.py`.

Parameters stand in for what the code draws from outside:
- the clock (`now`, in microseconds);
- `secrets.token_urlsafe` (`newToken`, `verifier`);
- SHA-256 (`sha256: string -> Digest`, a 32-byte digest);
- the identity provider's `/user` endpoint (`provider`, from code and verifier to a status and an optional profile);
- the object-store listing (`keys`, `bucket`);
- whether `pg_dump` succeeded (`dumped`).

Behaviour worth knowing:
- A token resolves while `created_at >= now - 10 minutes`. The check is inclusive, so a token exactly ten minutes old still resolves (`Store.TokenExpiryBoundary`).
- The callback never clears `session.auth` (`Handlers.Callback`, `Handlers.CallbackReplay`).
- An unknown Discord id in the callback answers 400 "discord id not found". The provider's refusal ("invalid token") is checked before it.
- A link is never removed: no operation deletes a row of any table.
- `/auth` stores a plain dict in `session.auth`. So the `SessionAuthSchema` class tag never appears in sessions the server writes, though the codec supports it.
- `flow_start`'s "400 Bad Request" branch is dead: `start_flow` never returns `None`. A token collision raises at commit and ends in the error middleware's 500.

## Model

| member | source | states |
|---|---|---|
| Common.Split | server/routers/v1/root/main.py:51 | `str.split(sep)` cuts at every separator: at least one field, no field contains the separator, and joining the fields with it gives back the input |
| Common.SplitJoin | server/routers/v1/root/main.py:51-52 | splitting undoes joining whenever no field contains the separator |
| Common.FirstIndex | db/package/util.py:14 | `.first()`: the index found satisfies the filter and no earlier row does; `None` exactly when no row does |
| Common.RStrip | server/routers/v1/root/main.py:73 | `rstrip("=")` returns a prefix of the input that does not end in the character, and every removed character is that character |
| Common.RStripPadding | server/routers/v1/root/main.py:73 | stripping removes exactly an appended run of the character from a string not ending in it |
| Common.ParseZeroPad | db/dump.py:93 | a zero-padded `strftime` field reads back under `strptime` as the number it was written from |
| Common.ParseNatToString | server/routers/v1/root/main.py:216 | `int(str(n)) == n`: the decimal text of the Wikidot id in the avatar URL names the id |
| Base64Url.EncodeUnpadded | server/routers/v1/root/main.py:73 | the unpadded encoding of n bytes has ⌈4n/3⌉ characters, none of them `=` |
| Base64Url.EncodeIsUnpaddedPlusPadding | server/routers/v1/root/main.py:73 | `urlsafe_b64encode` output is the unpadded encoding followed by exactly the `=` padding the length calls for |
| Base64Url.StripPaddedEncoding | server/routers/v1/root/main.py:73 | `urlsafe_b64encode(d).rstrip("=")` equals the unpadded encoding of `d` |
| Base64Url.DecodeEncodeUnpadded | server/routers/v1/root/main.py:73 | the unpadded encoding is invertible: decoding it returns the original bytes |
| Pkce.CreateCodeChallenge | server/routers/v1/root/main.py:62-78 | `plain` returns the verifier; `S256` returns a 43-character, padding-free string that decodes to SHA-256 of the verifier; any other method is a `ValueError` |
| ApiKey.CheckApiKey | server/routers/v1/root/main.py:41-59 | acceptance implies a key is configured, a header is present, and the header is `<word> <key>` with no other space |
| ApiKey.CheckApiKeyAccepts | server/routers/v1/root/main.py:41-59 | the check accepts exactly the headers `<word> <key>` with one space and a space-free word, and only when a key is configured |
| ApiKey.SchemeWordIgnored | server/routers/v1/root/main.py:50-56 | the first word is never inspected: any space-free scheme passes with the right key |
| Store.GetDiscordAccount | db/package/util.py:13-14 | returns a stored row carrying the requested Discord id, and `None` exactly when no row carries it |
| Store.GetWikidotAccount | db/package/util.py:29-30 | returns a stored row carrying the requested Wikidot id, and `None` exactly when no row carries it |
| Store.GetDiscordAccountFindsRow | db/package/models.py:18-21 | under the `unique=True` constraint the lookup returns the one row with that id |
| Store.GetWikidotAccountFindsRow | db/package/models.py:50-53 | under the `unique=True` constraint the lookup returns the one row with that id |
| Store.CreateDiscordAccount | db/package/util.py:17-26 | the commit fails exactly when the Discord id is taken; otherwise one row with the profile's fields is appended, nothing else changes, and the id set grows by that id |
| Store.CreateWikidotAccount | db/package/util.py:33-42 | the commit fails exactly when the Wikidot id is taken; otherwise one row with the profile's fields is appended, nothing else changes, and the id set grows by that id |
| Store.CreateAccountsKeepValid | db/package/models.py:11-131 | account creation keeps every invariant: serial ids, unique platform ids and tokens, one link per pair, resolving foreign keys |
| Store.LookupOrCreateWikidot | server/routers/v1/root/main.py:202-204 | the account returned is stored and carries the profile's id; the store is untouched when the id exists, and then the account is the stored row `get_wikidot_account` finds; otherwise the store gains exactly `create_wikidot_account`'s row |
| Store.LookupOrCreateWikidotValid | server/routers/v1/root/main.py:202-204 | lookup-or-create keeps every store invariant |
| Store.CreateLink | db/package/util.py:45-61 | insert-if-absent: an existing pair leaves the store alone and yields `None`; otherwise exactly one link row for the pair is appended; only the links change, and existing link rows are kept; afterwards the pair is linked |
| Store.CreateLinkValid | db/package/util.py:45-61 | `create_link` keeps every invariant, in particular at most one link row per pair |
| Store.CreateLinkTwice | db/package/util.py:47-52 | a second `create_link` for the same pair answers `None` and writes nothing |
| Store.GetDiscordAccountFromToken | db/package/util.py:64-73 | a result is a stored account that owns a live row for the token; no live row means `None` |
| Store.TokenResolvesIffLive | db/package/util.py:64-73 | in a consistent store a token resolves exactly when a row with that string is at most ten minutes old |
| Store.TokenResolvesToOwner | db/package/util.py:66-73 | a live token resolves to the account its foreign key names |
| Store.TokenExpiryBoundary | db/package/util.py:68 | a token still resolves exactly ten minutes after creation and no longer one microsecond later |
| Store.LookupOrCreateDiscord | db/package/util.py:78-80 | the account returned is stored and carries the profile's id; the store is untouched when the id exists and gains exactly `create_discord_account`'s row otherwise |
| Store.StartFlow | db/package/util.py:76-90 | Wikidot accounts and links are untouched; accounts and tokens only grow; the Discord id becomes known; a new id gains exactly `create_discord_account`'s row with the profile's username and avatar; the commit fails exactly on a token collision; on success one token row created now, owned by the profile's account, is appended |
| Store.StartFlowValid | db/package/util.py:76-90 | `start_flow` keeps every store invariant |
| Store.StartFlowTokenResolves | db/package/util.py:76-90 | the token handed out resolves, for the next ten minutes, to the account carrying the profile's id |
| Store.StartFlowTwiceOneAccount | db/package/util.py:78-80 | repeating `start_flow` for one profile never adds a second account |
| SessionSchemas.AuthFields | redis/schemas.py:9-14 | the field dict of a pending authorization has exactly the four declared field names, each holding that field's value |
| SessionSchemas.AuthFromFields | redis/schemas.py:9-14 | construction from keywords succeeds only with exactly the four fields, and the record's field dict is the input |
| SessionSchemas.AuthFieldsRoundTrip | redis/schemas.py:9-14 | building a record from its own field dict gives it back |
| SessionSchemas.SessionFromFields | redis/schemas.py:17-19 | `SessionSchema(**d)` succeeds exactly when `auth` is the only keyword, takes its value, and defaults to `None` |
| SessionStore.Encode | redis/redis.py:10-14 | a value encodes exactly when it holds no `SessionSchema`; a `SessionAuthSchema` becomes the tagged object; dicts keep their keys |
| SessionStore.DecodeHook | redis/redis.py:16-24 | an untagged dict comes back unchanged; an unknown tag is an error; a rebuilt `SessionAuthSchema` was given exactly its field dict under `__value__` |
| SessionStore.Decode | redis/redis.py:16-24 | `null` loads as `None`, and any dict that comes back carries no class tag |
| SessionStore.HookRebuildsAuth | redis/redis.py:16-24 | the hook rebuilds a `SessionAuthSchema` from its class tag and field dict |
| SessionStore.DecodeTaggedAuth | redis/redis.py:11-23 | the tagged object of a `SessionAuthSchema` loads as that record, and its untagged field object loads as a plain dict |
| SessionStore.DecodeEncode | redis/redis.py:7-24 | loading inverts dumping for every value built from `None`, ints, strings, `SessionAuthSchema` records and dicts without the tag key |
| SessionStore.Get | redis/redis.py:37-41 | an absent key reads as `None`; a session comes back only from a stored JSON object |
| SessionStore.Set | redis/redis.py:43-49 | writing succeeds exactly when `auth` is serializable; it writes only the key, and stores the untagged object `{"auth": …}` |
| SessionStore.Delete | redis/redis.py:51-52 | the key is gone and every other key keeps its document |
| SessionStore.GetAfterSet | redis/redis.py:37-49 | reading a key after writing it returns an equal session |
| SessionStore.SessionShapesRoundTrip | redis/redis.py:37-49 | the empty session, a tagged pending authorization and the plain dict `/auth` writes all read back unchanged |
| SessionStore.GetOtherAfterSet | redis/redis.py:43-49 | writing one key does not change what another key reads |
| SessionStore.GetAfterDelete | redis/redis.py:51-52 | after deleting, the key reads as absent and other keys read as before |
| Handlers.QueryValueAt | server/routers/v1/root/main.py:130-137 | a query lookup finds the first parameter with the name |
| Handlers.FlowStart | server/routers/v1/root/main.py:86-103 | a failed key check answers 401 and changes nothing; a URL comes back exactly when the key passes and the token is new, and it is `{site}/v1/auth?token={token}`; 400 never occurs; a collision ends in 500 |
| Handlers.AuthorizeQueryValues | server/routers/v1/root/main.py:130-137 | the redirect carries the token as `state`, the callback URL, the challenge and `S256` |
| Handlers.Auth | server/routers/v1/root/main.py:106-142 | an unresolvable token answers 400 "invalid token" and changes nothing; otherwise the session holds the pending authorization and the redirect's challenge is the unpadded base64url encoding of SHA-256 of the stored verifier, and decodes back to that digest; the database is never written |
| Handlers.AuthStoresPending | server/routers/v1/root/main.py:123-128 | on a resolving token `/auth` leaves the database alone and stores exactly the pending authorization as a plain dict |
| Handlers.AuthSessionPersists | server/routers/v1/root/main.py:123-128 | the session `/auth` writes survives the session store unchanged |
| Handlers.LinkAccounts | server/routers/v1/root/main.py:202-227 | always a success page; its message says "already linked" exactly when the pair was linked; the page shows the Discord account's name and avatar and the stored Wikidot account's name (the profile's name when the account is new); a known Wikidot id leaves the Wikidot rows unchanged and a new one adds exactly `create_wikidot_account`'s row; existing link rows are kept and at most one is added; afterwards the pair is linked; invariants are kept; an already-linked pair leaves a consistent store unchanged |
| Handlers.Callback | server/routers/v1/root/main.py:145-227 | the session is never changed; every non-success answer leaves the database alone; no session gives 400 "invalid session"; a stored state that differs gives 400 "invalid state"; a non-dict session value gives 500; with a matching state, "invalid token" comes exactly when the challenge method and verifier are stored and the provider answers other than 200, and "discord id not found" exactly when the provider answered 200 with a profile and the stored int Discord id names no account, so the provider's refusal is checked first; success implies the callback was accepted |
| Handlers.Exchange | server/routers/v1/root/main.py:165-208 | failure leaves the state alone; a missing challenge method or verifier gives 500; success needs all four fields, a 200 reply with a profile and a known Discord id; "invalid token" comes exactly when both fields are present and the provider answers other than 200; "discord id not found" exactly when the provider answered 200 with a profile and the int Discord id names no account |
| Handlers.LinkKnown | server/routers/v1/root/main.py:195-200 | the stored Discord id must name an account: success exactly when it does, otherwise 400 "discord id not found" and nothing written |
| Handlers.AcceptedCallbackLinks | server/routers/v1/root/main.py:195-227 | an accepted callback shows a success page, links the pair and keeps the store consistent |
| Handlers.CallbackSucceedsIff | server/routers/v1/root/main.py:152-227 | the callback answers 200 exactly when the session holds the four fields, the state matches, the provider approves, and the Discord id is known |
| Handlers.CallbackStatuses | server/routers/v1/root/main.py:152-227 | the callback answers only 200, 400 or 500, and every 400 is one of the four error pages |
| Handlers.CallbackKeepsValid | server/routers/v1/root/main.py:202-208 | the callback keeps every store invariant |
| Handlers.CallbackLinksPair | server/routers/v1/root/main.py:195-227 | an accepted callback links the stored Discord id with the provider's Wikidot id and says "already linked" exactly when they were; Discord accounts and tokens are unchanged, existing link rows are kept, a known Wikidot id leaves the Wikidot rows unchanged, and a new Wikidot account shows the provider's name |
| Handlers.CallbackReplay | server/routers/v1/root/main.py:145-227 | because the session is kept, replaying an accepted callback (one that succeeds, by `Handlers.CallbackSucceedsIff`) is possible; it answers "already linked" and writes nothing |
| Handlers.AuthThenCallback | server/routers/v1/root/main.py:106-227 | `/auth` then a callback with the issued state and an approving provider links the token owner's Discord id with the provider's Wikidot id |
| Handlers.LinkingFlow | server/routers/v1/root/main.py:86-227 | start, auth within ten minutes, and an approving callback link the bot's Discord profile with the provider's Wikidot account and keep the store consistent |
| Backups.TimeOfDayBounds | db/dump.py:110 | a valid `datetime` lies within one day of its own midnight |
| Backups.TimestampText | db/dump.py:241 | `%Y%m%d_%H%M%S` has fifteen characters with `_` at position 8 |
| Backups.BackupKey | db/dump.py:269 | a backup key starts with `{dir}/backup_` |
| Backups.ParseDate | db/dump.py:129 | a parsed date came from eight digits and names a real calendar day |
| Backups.ParseTime | db/dump.py:93 | a parsed time came from six characters and names a real time of day |
| Backups.ParseTimestampFields | db/dump.py:93 | each field `strftime` writes parses back to its value, and the fields contain neither `_` nor `.` |
| Backups.ParseBackupTime | db/dump.py:86-94 | a timestamp is read only from a key with the backup prefix, and it is a valid second-resolution `datetime` |
| Backups.BackupKeyRoundTrip | db/dump.py:88-93 | a key `create_backup` writes reads back as its timestamp without microseconds, for every directory |
| Backups.ParseBackupTimeAsWritten | db/dump.py:88-93 | the code's reading also only yields valid `datetime`s from prefixed keys |
| Backups.BackupDayAsWritten | db/dump.py:125-129 | the code's day reading yields only real days from prefixed keys |
| Backups.UnderscoreDirectoryHidesBackups | db/dump.py:91-92 | for the directory `db_backup` the code reads no key it writes, while the intended reading recovers the timestamp |
| Backups.BackupParsersAgree | db/dump.py:91-92 | for a directory without `_` the code's readings equal the intended ones on every key |
| Backups.BackupKeyRoundTripAsWritten | db/dump.py:88-93 | for a directory without `_` the code reads back the timestamp and day of every key it writes |
| Backups.UnderscoreDirectoryReadsNothing | db/dump.py:91-93 | for the directory `db_backup` the code's readings of time and day yield nothing for every key |
| Backups.ReadTime | db/dump.py:88-93 | under either reading (the intended one or the code's `AsWritten`) a timestamp is read only from a prefixed key and is a valid `datetime` |
| Backups.ReadDay | db/dump.py:125-129 | under either reading a day is read only from a prefixed key and is a real calendar day |
| Backups.WrittenKeyReads | db/dump.py:88-93 | a written key reads back as its timestamp and day under the intended reading, and under the code's when the directory has no `_` |
| Backups.Collect | db/dump.py:85-98 | under either reading, the collected entries are exactly the listed keys with a readable timestamp, paired with it |
| Backups.InsertNewestFirst | db/dump.py:105 | insertion adds exactly the one entry: the result is the input plus it, as a multiset |
| Backups.InsertKeepsNewestFirst | db/dump.py:105 | inserting into a newest-first list keeps it newest first |
| Backups.SortNewestFirst | db/dump.py:105 | `sorted(..., reverse=True)` by timestamp: the result is newest first and a permutation of the input |
| Backups.GetBackupFiles | db/dump.py:75-105 | under either reading: newest first, a permutation of the readable entries, and an entry is present exactly when its key is listed and reads as that timestamp |
| Backups.WrittenBackupIsListed | db/dump.py:75-105 | every backup the service wrote is offered for restore with its timestamp, under the intended reading, or under the code's when the directory has no `_` |
| Backups.BackupDay | db/dump.py:128-129 | a day is read only from a prefixed key and is a real calendar day |
| Backups.ListOldBackups | db/dump.py:108-142 | under either reading, a key is listed exactly when it is in the listing and its day at midnight is before `now` minus the retention period |
| Backups.OldByDay | db/dump.py:110-131 | under either reading, for a key whose day reads: a backup from before the cutoff's day is old and one from after it is kept; one from that day is old exactly when `now` is not midnight |
| Backups.DeleteOldBackups | db/dump.py:145-155 | no request for an empty list; otherwise one request naming exactly the given keys |
| Backups.RemoveKeys | db/dump.py:151-155 | after the delete request exactly the keys not named remain |
| Backups.Upload | db/dump.py:269-274 | after the upload the listing holds the old keys and the new one |
| Backups.BackupCycle | db/dump.py:239-284 | under either reading: a failed dump leaves the bucket alone; otherwise the bucket holds exactly the old keys plus the new one, minus those outside the retention period |
| Backups.BackupDayOfKey | db/dump.py:128-129 | the day a backup key names is the day its cycle started |
| Backups.FreshBackupSurvives | db/dump.py:239-284 | with a retention of at least one day, a cycle's own backup survives its pruning as long as the pruning happens within the retention period minus one day; under the intended reading, or the code's when the directory has no `_` |
| Backups.ZeroRetentionDeletesFresh | db/dump.py:239-284 | with a retention of zero days and pruning at the start time, a cycle deletes its own backup unless it started exactly at midnight; under the intended reading, or the code's when the directory has no `_` |
| Backups.UnderscoreDirectoryListsNothing | db/dump.py:75-142 | with the directory `db_backup` the code offers nothing for restore, lists nothing as old, and a successful cycle leaves exactly the old keys plus the new one |
| Backups.CollectAgrees | db/dump.py:85-98 | for a directory without `_` the code's collected entries equal the intended ones |
| Backups.ListOldAgrees | db/dump.py:108-142 | for a directory without `_` the code's old-backup list equals the intended one |
| Backups.ReadingsAgree | db/dump.py:75-284 | for a directory without `_` the code's restore listing, old-backup list and backup cycle equal the intended ones |
| Backups.DatedDirectoryReadsOneDay | db/dump.py:128-129 | for the directory `x_20240101_y` the code reads every prefixed key's day as 2024-01-01 |
| Backups.DatedDirectoryPrunesEverything | db/dump.py:108-142 | for the directory `x_20240101_y`, once `now` is past the retention period after 2024-01-01, a cycle keeps exactly the bucket's keys without the backup prefix, so its own fresh backup is deleted |

## Findings

| source | as written | input that shows it | evidently intended | confidence | as-written member | corrected member |
|---|---|---|---|---|---|---|
| db/dump.py:91-92 | `get_backup_files` splits the whole key on `_`. It takes field 1 as the date and field 2 as the time. Line 128 in `list_old_backups` does the same for the date. | With `BACKUP_DIR=db_backup`, the key `db_backup/backup_20240101_030000.sql` has field 1 `backup/backup`. No backup is ever offered for restore, and no backup is ever pruned. | Read the date and time from the part of the key after `{BACKUP_DIR}/backup_`. | not executed; high | Backups.UnderscoreDirectoryListsNothing | Backups.WrittenBackupIsListed |
| db/dump.py:128-129 | `list_old_backups` takes the whole key's `split('_')[1]` as the backup's day. | With `BACKUP_DIR=x_20240101_y`, field 1 of every key is `20240101`. Once today is more than the retention period after 2024-01-01, each cycle deletes every backup, the one it has just uploaded included. | Read the day from the part of the key after `{BACKUP_DIR}/backup_`. | not executed; high | Backups.DatedDirectoryPrunesEverything | Backups.FreshBackupSurvives |

`Backups.ParseBackupTime` and `Backups.BackupDay` read the fields after the prefix; `ParseBackupTimeAsWritten` and `BackupDayAsWritten` split the whole key as the code does. `GetBackupFiles`, `ListOldBackups` and `BackupCycle` take a `Reading` that picks one of the two. `Backups.UnderscoreDirectoryHidesBackups` and `Backups.UnderscoreDirectoryListsNothing` show the code's behaviour for `db_backup`, key by key and for whole operations, and `Backups.DatedDirectoryPrunesEverything` for `x_20240101_y`. `Backups.WrittenBackupIsListed` proves that the intended reading offers every written backup. `Backups.BackupParsersAgree` and `Backups.ReadingsAgree` prove that the two readings coincide whenever the directory has no `_`, which covers the default directory `default`.

## Left out

- Network, database, Redis and S3 transport, `pg_dump`/`psql` subprocesses, logging, Sentry, templates and FastAPI middleware are not modelled. A handler's exception is modelled as the error middleware's 500 (`InternalError`).
- The identity provider's `/user` call is an oracle parameter. The client id and secret it receives are not modelled, and neither is whether the verifier sent is JSON-serializable.
- `hashlib.sha256` and `secrets.token_urlsafe` are parameters. `sha256` maps the verifier (its UTF-8 bytes) to a 32-byte digest.
- Concurrency is not modelled: two requests racing on the same id or token are outside the model.
- The `HTTPBearer` dependency that rejects requests without a bearer header before `check_api_key` runs is not modelled; the function itself is.
- `flow_recheck`, `check_jp_member`, `IOUtil.update_*` and the background task the callback schedules are not modelled. The task passes two arguments to a three-parameter function and would fail after the response is sent.
- `restore_backup`, `ensure_backup_directory`, the interactive `pick` menu and the scheduler loop are not modelled.
- `created_at`/`updated_at` server defaults are not modelled, except a token's `created_at`, which the code sets and compares.
- `DiscordAccountSchema.id` is declared `str` while the column is a big integer. The model uses `int` throughout.
- Store.CreateDiscordAccount, Store.CreateWikidotAccount: the model does not bound column widths (`String(255)`, 32-bit `Integer`, 64-bit `BigInteger`). So it never raises the database errors that oversized values would cause.
- SessionSchemas.AuthFromFields: requires the declared field types. Python dataclasses do not check types, so a stored record with, say, a string `discord_id` would be accepted there.
- SessionStore.Decode: when several members fail it reports `UnknownClass` if any member did. Python raises the first failure it meets while parsing. Python raises `TypeError` instead of the unknown-class `ValueError` when the tag is unhashable.
- SessionStore.Set: the optional `expire` argument (a Redis time-to-live) is not modelled; `GetAfterSet` holds only until the key expires.
- Handlers.Auth: the redirect's query is modelled as a list of (name, value) pairs. The code builds the `Location` URL by plain string concatenation without escaping, so a client id or site URL containing `&` or `=` would parse into different parameters; that is not modelled.
- Handlers.Exchange: a `discord_id` in the session that is not an int ends in 500. The database's coercion of such a value is not modelled, and `/auth` always stores an int.
- Backups.ParseDate, Backups.ParseTime: only the fixed-width form is accepted. `strptime` also accepts one-digit month, day, hour, minute and second fields. On the keys the service writes, the two agree.
- Backups.TimestampText: writes the year with four digits. Some C libraries do not zero-pad years below 1000 under `%Y`.
- Backups.Cutoff: the `OverflowError` that `datetime - timedelta` raises near year 1 is not modelled.
- Backups.WrittenBackupIsListed: does not hold under the code's reading for a directory containing `_`; `Backups.UnderscoreDirectoryListsNothing` states what happens for `db_backup` instead.
- Backups.FreshBackupSurvives: stated under the intended reading, or the code's for a directory without `_`. Under the code's reading with a `_` directory it depends on the second `_`-field of the key: for `db_backup` nothing is pruned, so the fresh backup survives (`Backups.UnderscoreDirectoryListsNothing`); for a directory whose second `_`-field is a date, such as `x_20240101_y`, every backup reads as that date and the fresh one is deleted once that date is past the retention period (`Backups.DatedDirectoryPrunesEverything`).
- Backups.ZeroRetentionDeletesFresh: stated under the intended reading, or the code's for a directory without `_`. Under the code's reading with `db_backup` nothing is pruned, so a zero retention deletes nothing (`Backups.UnderscoreDirectoryListsNothing`); with `x_20240101_y` the fresh backup is deleted, as under every retention that 2024-01-01 has outlived (`Backups.DatedDirectoryPrunesEverything`).
- Store: surrogate keys are numbered 1, 2, … in insertion order. A database sequence also spends a value on every failed insert, so real ids may skip; no contract depends on the exact values, only on their being distinct.
- Backups.GetBackupFiles: proves the order and the permutation. It does not prove the stability of `sorted` among backups with equal timestamps.
- Backups.Upload: an object store overwrites an existing key, so the key is added at most once. The model lists keys in upload order. S3 lists them in lexicographic order, which is not modelled; `ListOldBackups` keeps whatever order it is given.
