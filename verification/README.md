# thingbox content store, session caches and `server_url` in Dafny

thingbox stores encrypted content items that admins address to external
target identities, and lets each target read back its own items. This project
models three sequential pieces of its Python server:

- **The content store (`DB` in server/thingbox/db.py).** The four SQLite
  tables `admins`, `templates`, `batches` and `items` become the value
  `Schema.Tables`. Its integrity constraints are `Schema.Integrity`: the
  primary keys, UNIQUE (user_type, user_id), and the foreign keys that
  `PRAGMA foreign_keys = ON` enforces. The read-only methods (`is_admin`, the
  check branch of `create_or_check_batch`, `get_items`, `get_template`,
  `get_templates`) are functions in module `Queries`. Each writing statement
  (`make_admin`/`revoke_admin`, the insert branch of `create_or_check_batch`,
  `close_batch`, `add_item`) is a transition in module `Transitions`. It
  returns what the Python method returns and the tables afterwards. A
  statement that raises `IntegrityError` leaves the tables unchanged. Class
  `Database.DB` holds the tables as fields. Its methods update them in place
  and are proved to perform exactly those transitions while keeping the
  constraints, plus the rule that every stored ciphertext decrypts.
- **Session bookkeeping (server/thingbox/api.py).** `Api.Sessions` holds the
  three token caches `auth_sessions`, `user_sessions` and `admin_tokens` as
  maps. `Api.UserSession` is the session record, whose `adminToken` field is
  updated in place. The FastAPI dependencies `user_is_authenticated`,
  `authenticated_user_is_admin` and `api_token_is_admin_token`, and the
  endpoints `auth_begin`, `auth_complete` and `get_admin_token`, are modelled
  with their 401/403 outcomes as values of `Api.Reply`. The invariant
  `Sessions.Valid` says that every live admin token is the current token of
  its session. So each session has at most one live admin token.
- **`server_url` (server/thingbox/client.py).** `Client.ServerUrl` removes at
  most one trailing `/` from the base URL and appends the path.

Behaviour of the code that the model keeps, although a reader might expect otherwise:

- `add_item` checks neither that the batch is open nor who owns it. It relies
  only on the foreign keys to `batches` and `templates`, so an unknown
  template id is rejected at write time.
- `get_items` decrypts each row and silently drops the rows that fail to
  decrypt. It returns `{data, template_id}`; the category is not returned.
- `close_batch` always returns True, even for an unknown batch. Each call
  overwrites the close timestamp.
- `INSERT OR REPLACE` deletes the conflicting admins row and appends a new
  row with a fresh AUTOINCREMENT id. When a batch refers to the old id, the
  foreign key makes the statement fail. Consequence: `revoke_admin` can never
  revoke an admin who owns a batch (`Transitions.RevokeBlockedByBatch`). The
  same holds for re-granting such an admin.
- `get_template` raises for a missing id (see Findings).

Inputs the code draws from outside are parameters:

- the id from `generate_uid` (`freshId`);
- every `CURRENT_TIMESTAMP` (`now`: whole seconds, whose text form sorts
  chronologically);
- the tokens from `make_token` (`token`, `newToken`);
- the SealedBox decryption of `decrypt_data` (the function `decrypt`);
- `db.is_admin` as the API sees it (the predicate `isAdmin`, standing for the
  Python truth value of the returned id; `Queries.IsAdminIdPositive` shows
  that a found id is never 0);
- the identity provider's answer in `auth_complete` (`verified`).

## Model

| member | source | states |
|---|---|---|
| Schema.UniqueNoTwoRowsForUser | server/thingbox/db.py:46-52 | under the admins constraints, no two rows share an id or a (user_type, user_id) pair |
| Queries.FindActive | server/thingbox/db.py:110-121 | an id is returned exactly when some row for (user_type, user_id) has active = TRUE, and it is that row's id; otherwise None |
| Queries.IsAdmin | server/thingbox/db.py:110-121 | `is_admin` returns an id exactly when an admins row for (user_type, user_id) has active = TRUE, and that id is the row's; otherwise None |
| Queries.IsAdminOfRow | server/thingbox/db.py:110-121 | with the UNIQUE constraint in force, `is_admin` reports exactly the user's row: its id if active, None if not |
| Queries.IsAdminIdPositive | server/thingbox/db.py:47 | AUTOINCREMENT ids start at 1, so a found admin id is never falsy when the API tests it |
| Queries.CheckBatch | server/thingbox/db.py:154-165 | returns the batch id unchanged iff a batch with that id, owned by the admin and with closed IS NULL, exists; otherwise the "has no batch" exception |
| Queries.Matching | server/thingbox/db.py:202-208 | keeps exactly the rows with the given target that are not archived |
| Queries.MatchingCounts | server/thingbox/db.py:202-208 | each matching row is kept as often as it occurs in the table, and no other row occurs at all |
| Queries.InsertKeepsNewestFirst | server/thingbox/db.py:209-210 | inserting a row into a newest-first sequence keeps it newest first |
| Queries.InsertIsPermutation | server/thingbox/db.py:209-210 | inserting adds exactly the one row and loses none |
| Queries.SortNewestFirst | server/thingbox/db.py:209-210 | ORDER BY created DESC: the result is in non-increasing created order and is a permutation of its input |
| Queries.OrderedRows | server/thingbox/db.py:202-211 | the rows the SELECT fetches: a newest-first permutation of the matching rows |
| Queries.DecryptRows | server/thingbox/db.py:213-214 | the comprehension and filter never return more entries than rows were fetched (the exact count is DecryptRowsCount) |
| Queries.DecryptRowsSound | server/thingbox/db.py:213-214 | every returned entry is the decrypted data and template id of one fetched row |
| Queries.DecryptRowsComplete | server/thingbox/db.py:213-214 | a fetched row whose data decrypts is never filtered out |
| Queries.DecryptRowsKeepsOrder | server/thingbox/db.py:213-214 | the filter never reorders: any two fetched rows that decrypt appear in the result in the order they were fetched |
| Queries.DecryptRowsCount | server/thingbox/db.py:213-214 | the result has exactly as many entries as there are fetched positions whose data decrypts, whatever other rows fail |
| Queries.DecryptRowsAll | server/thingbox/db.py:213-214 | when every fetched row decrypts, nothing is dropped and the order is kept |
| Queries.GetItems | server/thingbox/db.py:200-214 | get_items returns no more entries than there are matching rows, and each entry comes from a non-archived row of that target whose data decrypts |
| Queries.GetItemsCount | server/thingbox/db.py:200-214 | get_items lists exactly one entry per fetched row of the target that decrypts, even when other rows do not |
| Queries.GetItemsOfDecryptableStore | server/thingbox/db.py:200-214 | in a store whose items all decrypt, get_items returns exactly the matching rows, newest first, one entry each |
| Queries.GetItemsComplete | server/thingbox/db.py:200-214 | every decryptable, non-archived row of the target appears in get_items |
| Queries.NewerRowListedFirst | server/thingbox/db.py:209-214 | of two non-archived rows for the same target whose data decrypt, both are listed and the more recently created one comes first, even when other rows of the store do not decrypt |
| Queries.GetTemplate | server/thingbox/db.py:216-225 | as written: the content for an existing id, and an exception (never None) for a missing one |
| Queries.LookupTemplate | server/thingbox/db.py:216-225 | as intended: the content for an existing id, None exactly for a missing one |
| Queries.GetTemplateMissingRaises | server/thingbox/db.py:224-225 | for any id that is not a template, the as-written get_template raises where the intended one returns None |
| Queries.LookupTemplateAgrees | server/thingbox/db.py:224-225 | the corrected lookup agrees with get_template wherever get_template returns |
| Queries.GetTemplates | server/thingbox/db.py:227-234 | lists every template row with its content, and nothing else |
| Queries.GetTemplateAgreesWithList | server/thingbox/db.py:216-234 | get_template finds (id, content) exactly when get_templates lists that row |
| Transitions.DropUser | server/thingbox/db.py:127 | the REPLACE deletion keeps exactly the admins rows of other users |
| Transitions.UpsertAdmin | server/thingbox/db.py:123-141 | INSERT OR REPLACE succeeds iff no batch refers to the user's existing row; on success the user has exactly one row, the new one with the next AUTOINCREMENT id, and the other tables are untouched; on failure nothing changes |
| Transitions.UpsertSetsStatus | server/thingbox/db.py:123-141 | after a True make_admin, is_admin gives the new id; after a True revoke_admin, it gives None |
| Transitions.UpsertKeepsOthers | server/thingbox/db.py:123-141 | granting or revoking one user does not change is_admin for any other user |
| Transitions.UpsertPreservesIntegrity | server/thingbox/db.py:123-141 | an upsert keeps every schema constraint, including at most one admins row per (user_type, user_id), and keeps every batch |
| Transitions.RevokeBlockedByBatch | server/thingbox/db.py:133-141 | revoking an active admin who owns a batch returns False, changes nothing, and the admin stays active |
| Transitions.CreateBatch | server/thingbox/db.py:143-153 | succeeds iff the generated id is new and the admin id exists; then it adds exactly one batch, owned by the admin, with closed NULL, and returns its id; otherwise it returns None and changes nothing |
| Transitions.CreatedBatchIsOpen | server/thingbox/db.py:143-165 | a freshly created batch passes the check for its admin and fails it for every other admin |
| Transitions.CreatePreservesIntegrity | server/thingbox/db.py:61-67 | batch creation keeps every schema constraint |
| Transitions.CloseBatch | server/thingbox/db.py:167-179 | always returns True; stamps closed on that batch only, if it exists; no other row changes |
| Transitions.CloseBatchIdempotent | server/thingbox/db.py:167-176 | closing twice has the effect of closing once with the later timestamp |
| Transitions.ClosedBatchFailsCheck | server/thingbox/db.py:154-176 | after close_batch, the check branch rejects the batch for every admin |
| Transitions.ClosePreservesIntegrity | server/thingbox/db.py:171-173 | closing keeps every schema constraint |
| Transitions.AddItem | server/thingbox/db.py:187-198 | returns True iff the data decrypts and both the batch and the template exist; then it appends exactly one non-archived row; otherwise nothing changes; the batch's open state and owner play no part |
| Transitions.AddItemPreservesInvariants | server/thingbox/db.py:187-198 | ingestion keeps the schema constraints and the rule that every stored item decrypts |
| Transitions.AddedItemIsListed | server/thingbox/db.py:187-214 | after a True add_item, get_items for the target lists the decrypted item, and lists exactly one entry more |
| Transitions.UndecryptableRejected | server/thingbox/db.py:187-188 | a ciphertext that does not decrypt gives False and stores nothing, whatever the other arguments |
| Database.DB.constructor | server/thingbox/db.py:26-33 | a new database with empty admins, batches and items tables satisfies every constraint |
| Database.DB.Upsert | server/thingbox/db.py:126-128 | the INSERT OR REPLACE shared by make_admin and revoke_admin performs UpsertAdmin on the tables in place, returns its result, and keeps every constraint |
| Database.DB.MakeAdmin | server/thingbox/db.py:123-131 | True iff no batch refers to the user's old row; then is_admin gives the new id; False leaves the tables unchanged; other users are unaffected |
| Database.DB.RevokeAdmin | server/thingbox/db.py:133-141 | True iff no batch refers to the user's old row; then is_admin gives None; False leaves the tables unchanged; other users are unaffected |
| Database.DB.CreateOrCheckBatch | server/thingbox/db.py:143-165 | without a batch id it performs CreateBatch, and the new batch passes the check; with one it changes nothing and returns the id or the exception |
| Database.DB.CloseBatch | server/thingbox/db.py:167-179 | returns True, performs CloseBatch, and the batch is no longer open for anyone |
| Database.DB.AddItem | server/thingbox/db.py:187-198 | True iff the data decrypts and the batch and template exist; performs AddItem, after which get_items lists the item |
| Api.UserSession.constructor | server/thingbox/api.py:58-62 | a new session has no admin token |
| Api.Sessions.constructor | server/thingbox/api.py:53-55 | the three caches start empty |
| Api.Sessions.OneLiveTokenPerSession | server/thingbox/api.py:144-150 | two live admin tokens that map to the same session are the same token |
| Api.Sessions.UserIsAuthenticated | server/thingbox/api.py:80-84 | returns the cached session iff the token is a user-session key, and 401 otherwise; it changes nothing |
| Api.Sessions.AuthenticatedUserIsAdmin | server/thingbox/api.py:87-91 | 401 iff the token has no session; 403 iff it has one whose user is not an admin now; otherwise the same session |
| Api.Sessions.ApiTokenIsAdminToken | server/thingbox/api.py:94-102 | an unknown token gives 401 and changes nothing; a live token of a user who is no longer an admin is removed (that key only) and gives 403; otherwise the session is returned with nothing changed, so a returned session's user is an admin now |
| Api.Sessions.AuthBegin | server/thingbox/api.py:105-111 | registers the pending handshake under the new token, adding that one key, and returns the same token |
| Api.Sessions.AuthComplete | server/thingbox/api.py:114-123 | the token leaves auth_sessions; any old user session under it is removed first; a new session is created only if the token was pending and the provider answered |
| Api.Sessions.GetAdminToken | server/thingbox/api.py:144-150 | the guard's 401/403 leaves everything unchanged; otherwise the session's previous admin token is no longer a key, the new token maps to the session, and the session's admin_token is the new token |
| Client.ServerUrl | server/thingbox/client.py:7-9 | the path is a suffix of the result; what precedes it is the base, or the base without its one trailing `/` exactly when the base ends in `/`; the length shrinks by one in that case |
| Client.ServerUrlKeepsPlainBase | server/thingbox/client.py:8-9 | a base not ending in `/` is used unchanged |
| Client.ServerUrlDropsOneSlash | server/thingbox/client.py:8-9 | a base ending in `/` loses exactly that one character |
| Client.ServerUrlSlashInsensitive | server/thingbox/client.py:8-9 | adding one `/` to a base without one gives the same URL |
| Client.ServerUrlKeepsSecondSlash | server/thingbox/client.py:8-9 | for every base ending in `//`, only the last `/` is removed and the kept base still ends in `/` |

## Left out

- SQLite mechanics: connection setup, `row_factory`, executing the DDL, the commit and rollback of `with self._db`, and the `items_by_target` index. The tables are in-memory values.
- NULL values: every text argument is a string, so the NOT NULL constraints never fire.
- Database.DB.constructor: starts from a new database file whose templates table was filled by other means. None of the modelled operations writes templates.
- Concurrency: `_write_mutex` and the backup thread. Every operation is one atomic step.
- Backups: `backup`, `backup_periodically`, and the backup side effect of `close_batch`. They are file I/O.
- Cryptography and encodings: SealedBox, base64 and base58. Decryption is the opaque function `decrypt`. `generate_uid` and `make_token` are random, so their results are parameters.
- Queries.SortNewestFirst: SQLite leaves the order of rows with equal `created` values open. The model fixes rowid order for ties. The proved properties (newest first, a permutation) do not depend on that choice.
- Queries.GetTemplates: `SELECT id, content FROM templates` has no ORDER BY, so the rows are returned as a set.
- TTLCache expiry and maxsize eviction: that logic lives in cachetools, which is not part of this model. The caches are unbounded maps.
- Api.Sessions.AuthBegin: the tweepy OAuth handler and its redirect URL are not modelled. A pending handshake records only its token.
- The OAuth exchange in `auth_complete` (`get_access_token`, `verify_credentials`): its outcome is the parameter `verified`.
- FastAPI routing, CORS, static files, `Config` loading and the module-level `DB(...)` construction are framework plumbing.
- The `/user`, `/items` and `/public-key` endpoints only read and forward. `post_item` calls `add_item` with keyword arguments it does not accept, so it is not a working path.
- Client.ServerUrl: Python's `server_base_url[-1]` raises IndexError on an empty base URL; the model does not model that exception and requires a non-empty base instead.
- cli.py, and `get_public_key`, `encrypt`, `add_item` and `add_items` of client.py: network, crypto and command-line plumbing.

## Findings

| source | as written | input that shows it | evidently intended | confidence | as-written member | corrected member |
|---|---|---|---|---|---|---|
| server/thingbox/db.py:224-225 | `rows['content'] if len(rows) > 0 else None` where `rows = res.fetchone()` is `None` for a missing id, so `len(None)` raises `TypeError` | `get_template("t1")` on an empty templates table | return `None` for a missing template, as the `else None` arm says | high; not executed | Queries.GetTemplateMissingRaises | Queries.LookupTemplate |
