# ArliCenter API backend core, modelled in Dafny

This project models the core of the ArliCenter backend. The backend keeps the
OAuth tokens of the Bling ERP API and the customer accounts of the ArliCenter
app. The model covers four parts.

- **Token store manager** (`TokenStore`, class `TokenManager`).
  - The Firestore collection of tokens is a sequence of records.
  - Creating a token first switches off every active record, then adds the new one.
  - The active token is the newest record with `active == True`; reading it stamps `last_used`.
  - The refresh rule uses a 10-minute safety margin.
  - A local directory of `token_*.json` files is the fallback: the newest file wins.
  - `update_token` is a second insert path. It flags `is_active` instead of `active`.
- **Expiration notification policy** (`Notifications`, class `NotificationManager`).
  - The refresh token lives 30 days. With one day or less left the alert is an emergency; with two to five days left it is regular.
  - With one day or less left, emergencies repeat at most once per calendar day. Regular alerts repeat only after two calendar days. The emergency for a missing token or a missing `refresh_token` is sent on every check, without reading the log.
  - Three append-only JSON logs are kept: notifications, renewals and cycle control.
  - The renewal detector compares the token's creation time with the last alert.
  - The cycle check answers whether a notification cycle is still running.
  - The daily job of `backend/core/cron.py` runs the renewal check only when no alert was due.
- **User table** (`Users`, class `UserManager`).
  - User documents are keyed by CPF.
  - Creating a user under an existing CPF is refused when the lookup succeeds; after a failed lookup the create replaces the stored document.
  - Updates never write `cpf` or `data_cadastro`, and a plaintext `senha` is stored only as `senha_hash`.
  - Login is allowed only for users whose status is `ativo`.
  - Deactivation is soft: the user is marked `inativo`, not removed.
- **Bling API script helpers** (`BlingClient`).
  - The expiry stamp and expiry check of a saved token.
  - The idempotent `Bearer ` prefix, and the clean-up of a pasted token.
  - CPF punctuation removal.
  - The two request URLs.
  - The name of a saved result file.

`Documents` holds the value model shared by all four parts. Documents and
dictionaries are maps from field name to a `Value`. Timestamps are integer
seconds in one time zone, and the store's server timestamp is the `now`
parameter. `Text` gives the Python string operations the code relies on
(`strip`, `startswith`, `replace`, `rsplit('.', 1)`, `int(s)`, `str(n)`), with
their Python meaning.

Collaborators the code cannot see are parameters:
- the success or failure of each store call;
- the active token each notification check reads through `get_active_token`; the daily job makes two independent reads, one per check, so it takes two tokens;
- what the email call did;
- whether the SMS went out;
- the resolved authorization URL;
- `datetime.fromisoformat` on token dates;
- bcrypt's hash and check functions;
- the timestamp text used in file names.

What the proofs show about the code as written:
- When the deactivation batch commits, `create_token_document` leaves exactly one active record: the new one. The active-token query then returns it.
- When the batch fails, the old active record stays active beside the new one.
- When the deactivation batch commits, the `active == True` query finds nothing after `update_token`. This holds unless the caller's own data already carried `active: True`.
- `should_refresh_token` answers True for every token (see Findings).
- The cycle-control log is only ever written with `cancel_cycle` entries. So `is_notification_cycle_active` can never answer True on a log this code wrote.

## Model

| member | source | states |
|---|---|---|
| TokenStore.NewTokenDoc | backend/core/token_manager.py:62-67 | the stored document has every key of the token data, unchanged, plus `created_at`, `last_used` and `active`, which override same-named input keys; it is active |
| TokenStore.RefreshedTokenDoc | backend/core/token_manager.py:351-357 | the copy keeps every other input key, sets `created_at`, `is_active`, `last_used`, `refreshed_from`, and is active for the store's query exactly when the input already said `active: True` |
| TokenStore.DeactivateAllEffect | backend/core/token_manager.py:91-100 | after deactivation no record is active; inactive records are untouched; active ones change only in `active` |
| TokenStore.BatchDeactivatesExactlyActive | backend/core/token_manager.py:94-100 | with unique document ids, the batch of id-addressed updates the loop queues switches off exactly the active records |
| TokenStore.CreateLeavesSingleActive | backend/core/token_manager.py:69-77 | when deactivation commits, after a create exactly the new record is active and the active-token query returns it |
| TokenStore.CreateKeepsAtMostOneActive | backend/core/token_manager.py:69-77 | at most one active record is preserved by a create when deactivation commits or nothing was active |
| TokenStore.FailedDeactivationKeepsOldActive | backend/core/token_manager.py:103-104 | a swallowed deactivation failure followed by a successful add leaves two active records |
| TokenStore.UpdateTokenHidesRecord | backend/core/token_manager.py:348-360 | when the deactivation batch commits, after `update_token` no record is active and the active-token query returns nothing, unless the input carried `active: True` |
| TokenStore.NewestActive | backend/core/token_manager.py:115-120 | the query returns None exactly when no record is active, else an active record whose `created_at` is greatest |
| TokenStore.ShouldRefresh | backend/core/token_manager.py:146-180 | definition of the intended refresh rule; properties in `KeptOnlyBeforeRefreshPoint` and `RefreshBoundary` |
| TokenStore.ShouldRefreshAsWritten | backend/core/token_manager.py:159-180 | definition of the rule as written; properties in `ShouldRefreshAsWrittenAlwaysTrue` and `ShouldRefreshCounterexample` |
| TokenStore.RefreshToken | backend/core/token_manager.py:182-204 | definition: the placeholder hands back its argument on every path |
| TokenStore.KeptOnlyBeforeRefreshPoint | backend/core/token_manager.py:159-180 | the intended rule keeps a token only when `created_at` is a timestamp, `expires_in` is usable (default 3600) and now is before expiry minus 600 s; every other case refreshes |
| TokenStore.RefreshBoundary | backend/core/token_manager.py:167-175 | the refresh point is exactly `created_at + expires_in - 600` (`>=`), and once due a refresh stays due |
| TokenStore.ShouldRefreshAsWrittenAlwaysTrue | backend/core/token_manager.py:159-180 | as written, the rule answers True for every token |
| TokenStore.ShouldRefreshCounterexample | backend/core/token_manager.py:163 | a token created now with a one-hour lifetime is refreshed as written but kept by the intended rule |
| TokenStore.LatestTokenFile | backend/core/token_manager.py:265-274 | the pick is None exactly when no file matches `token_*.json`; otherwise a matching file with the greatest mtime, and every earlier matching file is strictly older, so the first file wins on ties |
| TokenStore.LocalToken | backend/core/token_manager.py:276-288 | definition: the content of the latest token file, or None; properties in `SavedTokenIsLoaded` and `TokenManager.GetLocalToken` |
| TokenStore.WriteFile | backend/core/token_manager.py:213-220 | the written file is present afterwards; every file of another name is kept; nothing else appears |
| TokenStore.SavedTokenIsLoaded | backend/core/token_manager.py:265-281 | a token saved locally after every existing file was last modified is what the local fallback reads back |
| TokenStore.TokenManager.constructor | backend/core/token_manager.py:38-48 | the manager starts over the stored collection, with unique, stamped records |
| TokenStore.TokenManager.DeactivateActiveTokens | backend/core/token_manager.py:85-104 | a committed batch gives exactly the deactivated collection; a failure leaves the collection unchanged |
| TokenStore.TokenManager.SaveTokenLocally | backend/core/token_manager.py:206-245 | writes `token_<stamp>.json` with the token data, or changes nothing when no directory can be written |
| TokenStore.TokenManager.CreateTokenDocument | backend/core/token_manager.py:50-83 | returns the new id only when the add succeeded; the collection is the deactivation result plus the new record; when the add fails, the token data goes to the fallback and the call raises |
| TokenStore.TokenManager.GetLocalToken | backend/core/token_manager.py:247-288 | the scan loop returns the content of the latest token file, or None |
| TokenStore.TokenManager.GetActiveToken | backend/core/token_manager.py:106-144 | no active record gives None; otherwise the newest active record's data as read, whether or not a refresh was due, with only its `last_used` changed; a failing query or update falls back to the local files |
| TokenStore.TokenManager.UpdateToken | backend/core/token_manager.py:335-367 | True exactly when the add succeeded; the collection is the deactivation result plus the `is_active` copy |
| Notifications.AppendOnly | backend/core/notification_manager.py:376-389 | a log write keeps every entry a reader saw, in order, and adds exactly the new one; an undecodable log restarts empty |
| Notifications.LatestEntry | backend/core/notification_manager.py:404-410 | the last notification is None exactly for an empty log; otherwise it is an entry with the greatest date, and the first such entry |
| Notifications.LastNotification | backend/core/notification_manager.py:396-420 | definition: None for a missing, undecodable or empty log, else the latest entry; properties in `LatestEntry` and `NewestRecordedIsLast` |
| Notifications.NewestRecordedIsLast | backend/core/notification_manager.py:385-410 | an entry dated after every logged one becomes the last notification |
| Notifications.DaysRemainingIsFloor | backend/core/notification_manager.py:82-85 | `days_remaining` is the floor of the time left before `created_at + 30 days`, counted in days |
| Notifications.ExpirationAlert | backend/core/notification_manager.py:39-114 | definition of the alert decision; properties in `AlertTable`, `EmergencyOncePerDay` and `RegularEveryOtherDay` |
| Notifications.AlertTable | backend/core/notification_manager.py:53-110 | no token or no `refresh_token` gives an emergency; an unreadable date gives nothing; more than 5 days gives nothing; with an empty log, at most 1 day gives an emergency and 2 to 5 days a regular alert |
| Notifications.EmergencyOncePerDay | backend/core/notification_manager.py:94-101 | in the emergency window the check is silent exactly when the last entry is an emergency from the same calendar day |
| Notifications.RegularEveryOtherDay | backend/core/notification_manager.py:102-108 | in the regular window a regular alert fires exactly when the last entry, of either kind, is two or more calendar days old |
| Notifications.SentEntry | backend/core/notification_manager.py:310-320 | the logged entry's type matches `is_emergency`; `sms_sent` can be true only for an emergency; `email_sent` is the truth of the mail count |
| Notifications.RenewalDetected | backend/core/notification_manager.py:428-463 | a renewal needs a logged notification, a token, and a readable creation date |
| Notifications.RenewalAfterAlert | backend/core/notification_manager.py:460-469 | after an alert that is the newest entry, a token is recognised as renewed exactly when it was created after the alert |
| Notifications.CycleActive | backend/core/notification_manager.py:555-598 | the cycle is active exactly when the control log is non-empty, its last entry is not `cancel_cycle`, and a notification was logged less than 24 hours ago |
| Notifications.CycleNeverActive | backend/core/notification_manager.py:531-533 | from a control log holding only cancellations, the cycle is never active and the only writer keeps it that way |
| Notifications.NotificationManager.constructor | backend/core/notification_manager.py:26-37 | the manager starts over the three existing log files |
| Notifications.NotificationManager.RecordNotificationSent | backend/core/notification_manager.py:357-389 | the notification log gains exactly the entry |
| Notifications.NotificationManager.RecordTokenRenewal | backend/core/notification_manager.py:479-517 | the renewal log gains exactly one entry with `success` true |
| Notifications.NotificationManager.CancelNotificationCycle | backend/core/notification_manager.py:519-553 | the control log gains exactly one `cancel_cycle` entry, so a log of cancellations stays one |
| Notifications.NotificationManager.SendNotification | backend/core/notification_manager.py:116-327 | returns True and appends exactly one entry when the authorization URL resolves non-empty and the email does not raise; otherwise returns False and logs nothing |
| Notifications.NotificationManager.CheckTokenExpiration | backend/core/notification_manager.py:39-114 | returns True exactly when an alert is due, whatever the send outcome; the log gains the alert's entry only when it was delivered |
| Notifications.NotificationManager.CheckTokenRenewed | backend/core/notification_manager.py:416-477 | returns True exactly when a renewal is detected, appending one renewal entry and one cancellation; otherwise it appends nothing |
| Notifications.NotificationManager.IsNotificationCycleActive | backend/core/notification_manager.py:560-610 | definition over the current logs; properties in `CycleActive` and `CycleNeverActive` |
| Notifications.NotificationManager.DailyTokenCheck | backend/core/cron.py:12-35 | the notification log gains the alert's entry exactly when an alert was due and delivered; when an alert was due the renewal check does not run and its logs are unchanged; otherwise the renewal and control logs gain one entry each exactly when a renewal is detected on the token of the second read |
| Users.NewUserDoc | backend/core/user_manager.py:62-83 | the new document has the CPF, the hash, status `ativo`, the given `perfil`, and `nome`/`email`/`telefone` exactly when truthy; no plaintext password |
| Users.FilteredUpdate | backend/core/user_manager.py:137-145 | the written fields never include `cpf`, `data_cadastro` or `senha`; every other input field is kept as given; a string `senha` becomes `senha_hash`; a non-string one makes the update fail |
| Users.CreatedUserLogsIn | backend/core/user_manager.py:176-192 | a freshly created user logs in with a password exactly when it checks against the hash made at creation |
| Users.DeactivatedUserRefused | backend/core/user_manager.py:176-179 | a deactivated user is refused whatever the password |
| Users.UpdateKeepsProtected | backend/core/user_manager.py:138-149 | an update leaves `cpf` and `data_cadastro` exactly as they were and adds no plaintext password |
| Users.UserManager.constructor | backend/core/user_manager.py:23-34 | the manager starts over a collection without plaintext passwords |
| Users.CreatedUserIsFound | backend/core/user_manager.py:54-90 | after a create the CPF holds exactly the built document, which is non-empty, so the existence test finds it and, when the lookup succeeds, a second create with that CPF is refused |
| Users.DeactivatedUserIsFound | backend/core/user_manager.py:221-230 | a deactivated user is still found, with status `inativo`, so its CPF cannot be registered again when the lookup succeeds |
| Users.CreateOverExistingReplaces | backend/core/user_manager.py:54-87 | a create that replaces a stored document leaves the user `ativo` with the new hash, a new `data_cadastro` and no `data_desativacao`, whatever was stored before |
| Users.UserManager.GetUserByCpf | backend/core/user_manager.py:96-118 | the stored document; None exactly when there is none or the read fails; its answer is truthy exactly when the read succeeds and the user exists for every other operation |
| Users.UserManager.CreateUser | backend/core/user_manager.py:36-94 | the CPF is returned exactly when the lookup failed or found no user, and the store's `set` succeeded; then the new document is stored under the CPF, replacing any existing one after a failed lookup, and a successful lookup returns it; otherwise None and no change |
| Users.UserManager.UpdateUser | backend/core/user_manager.py:120-156 | True exactly when the lookup succeeds and finds the user, the password, if any, could be hashed, and the store's `update` succeeded; the document is merged with the filtered fields; otherwise no change |
| Users.UserManager.VerifyPassword | backend/core/user_manager.py:158-207 | True exactly when the lookup succeeds and the user is `ativo`, has a non-empty hash, the password checks and recording `ultimo_acesso` succeeded; only then is `ultimo_acesso` set |
| Users.UserManager.DeactivateUser | backend/core/user_manager.py:209-237 | True exactly when the lookup succeeds and finds the user and the store's `update` succeeded; the user is then marked `inativo` with `data_desativacao` and still found; otherwise no change |
| BlingClient.ExpiredStaysExpired | backend/test_bling_api.py:141-160 | once a token is reported expired it stays expired |
| BlingClient.TokenExpired | backend/test_bling_api.py:141-160 | definition of the expiry check; properties in `ExpiredStaysExpired` and `StampedTokenExpiresAfterLifetime` |
| BlingClient.WithExpiry | backend/test_bling_api.py:124-126 | the call raises exactly when a missing `data_expiracao` must be computed from an unreadable `expires_in`; every other key and an existing `data_expiracao` keep their values; `data_expiracao` is present afterwards exactly when either key was, and a new one reads as now plus the lifetime |
| BlingClient.WithExpiryIdempotent | backend/test_bling_api.py:124-126 | saving a saved token again, at any later time, changes nothing |
| BlingClient.StampedTokenExpiresAfterLifetime | backend/test_bling_api.py:124-158 | a token stamped at `now` with lifetime `e` is reported expired at `t` exactly when `t > now + e` |
| BlingClient.TokenData.StampExpiry | backend/test_bling_api.py:124-126 | the caller's dictionary becomes the stamped token, or stays as it was when the call raises |
| BlingClient.AuthorizationHeader | backend/test_bling_api.py:296-300 | the header always starts with `Bearer `; a token with that exact prefix is unchanged, any other follows the prefix |
| BlingClient.AuthorizationHeaderIdempotent | backend/test_bling_api.py:346-348 | prefixing twice equals prefixing once |
| BlingClient.NormalizeManualToken | backend/test_bling_api.py:252-260 | empty input is refused; the result has no surrounding whitespace; input without a leading `bearer ` in any case is only stripped |
| BlingClient.NormalizeBearerInput | backend/test_bling_api.py:252-260 | a `bearer ` prefix in any letter case, with any whitespace around the input and after the prefix, is removed and the bare token is returned |
| BlingClient.ManualTokenUndoesHeader | backend/test_bling_api.py:259-260 | pasting a header built from a clean token gives back the token |
| BlingClient.DropPunctuation | backend/test_bling_api.py:526 | the reference filter leaves no `.`, `-` or `/` |
| BlingClient.CleanCpf | backend/test_bling_api.py:526 | definition: the three chained `replace` calls; properties in `CleanCpfDropsPunctuation` and `CleanCpfKeepsDigits` |
| BlingClient.CleanCpfDropsPunctuation | backend/test_bling_api.py:526 | the three replacements keep exactly the other characters, in order |
| BlingClient.CleanCpfKeepsDigits | backend/test_bling_api.py:526 | a CPF of digits only is unchanged |
| BlingClient.CpfFromInput | backend/test_bling_api.py:520-526 | empty input is refused; otherwise the stripped input without punctuation |
| BlingClient.ContactRequest | backend/test_bling_api.py:291-300 | definition of the contact lookup request; properties in `ContactQueryFromInput` |
| BlingClient.ReceivablesRequest | backend/test_bling_api.py:339-348 | definition of the receivables request; properties in `ReceivablesFilterReadsBack` and `ReceivablesUrlCarriesId` |
| BlingClient.ContactQueryFromInput | backend/test_bling_api.py:291-295 | the contact lookup built from typed input queries the stripped input without punctuation, so its query value holds no `.`, `-` or `/` |
| BlingClient.ReceivablesFilterReadsBack | backend/test_bling_api.py:339-343 | with a numeric contact id, `&situacoes[]=` occurs in the query exactly when a non-empty situation is given; the first `&` then ends the id, which reads back as the number, and the situation follows as given |
| BlingClient.ReceivablesUrlCarriesId | backend/test_bling_api.py:339 | without a filter, the query value reads back as the numeric contact id |
| BlingClient.Extension | backend/test_bling_api.py:432 | the extension holds no dot |
| BlingClient.ResultFileName | backend/test_bling_api.py:431-433 | definition of the written file name; properties in `ResultFileNameSplits` |
| BlingClient.ResultFileNameSplits | backend/test_bling_api.py:431-433 | splitting the written name at its last dot gives the original extension (`json` when the name has none) and the base followed by `_` and the timestamp |

## Left out

- Firestore, the JSON files and the local directories are values and sequences. Network and disk errors appear only as the success flags the operations take (for the user table: `readOk` for the lookup, `setOk` and `updateOk` for the writes).
- The email bodies, `send_mail`, the Twilio SMS call and the HTTP lookup of the authorization URL are parameters: the resolved URL, the mail outcome and the SMS flag.
- The HTTP calls of the Bling script, its prompts, its argument parsing and its currency totals are not modelled. The JSON branch of the manual token prompt is also left out, because it needs a JSON parser.
- Timestamps are integer seconds in one zone. Firestore's nanoseconds, float times and the naive/aware time-zone promotion are not modelled.
- bcrypt is the pair of parameters `hash` and `check`. A malformed stored hash, which makes `checkpw` raise, behaves as a failed check, with the same result.
- `get_notification_status`, `_get_authorization_url`, `_send_sms`, `define_token_structure`, `create_token_collection` and `create_firestore_indexes` are not modelled. They build constant dictionaries, probe connectivity or do I/O.
- backend/core/firebase_config.py, views.py, urls.py, apps.py and the driver scripts are not part of this model.
- TokenStore.NewestActive: among active records with equal `created_at`, the store orders by document id; the model keeps the first in collection order.
- TokenStore.TokenManager.SaveTokenLocally: the main and `/tmp` directories are one sequence. The model does not say which directory received the file, and a same-named file is replaced in the first place it appears.
- TokenStore.TokenManager.DeactivateActiveTokens: Firestore's limit on the number of writes in one batch is not modelled.
- TokenStore.LocalFile: a fallback file whose JSON is not an object is treated as undecodable.
- Notifications.LatestEntry: entries are ordered by their time. The code compares the ISO date strings, which agree with time order for the UTC strings it writes. Malformed or hand-edited log entries are not modelled.
- Notifications.NotificationManager.RecordNotificationSent: a log file holding JSON that is not a list, and a failing write, are not modelled. Both are swallowed by the code. The same holds for the renewal and control logs.
- Users.UserManager.UpdateUser: Firestore rejects an update with no fields, and it reads dotted keys as field paths. Neither is modelled: the merge is a top-level map update.
- Users.UserManager.CreateUser: invalid document ids (an empty CPF, or one containing `/`) are not modelled.
- BlingClient.IntOf: Python's `int()` also accepts underscores and non-ASCII digits in text, and truncates floats. The model reads only optional sign and ASCII digits, and has no floats.

## Findings

| source | as written | input that shows it | evidently intended | confidence | as-written member | corrected member |
|---|---|---|---|---|---|---|
| backend/core/token_manager.py:163 | `isinstance` is given the `SERVER_TIMESTAMP` sentinel, an object rather than a type. It raises `TypeError` for every truthy `created_at`, and the handler answers True, so every token is reported as due for refresh | `created_at` = now, `expires_in` = 3600 | refresh only from `created_at + expires_in - 10 minutes` on, as `ShouldRefresh` states; `GetActiveToken` branches on this rule, and returns the same token under either rule because `refresh_token` hands back its argument | high, not executed | TokenStore.ShouldRefreshCounterexample | TokenStore.RefreshBoundary |
