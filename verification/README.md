# Verified model of the personal-service core

A Dafny model of the parts of the personal-service repository that hold state, write text for another
program to read, or do arithmetic that has to come out right, with proofs over every input, every run or
every interleaving. `dafny verify dfyconfig.toml` checks the project.

| part | files |
|---|---|
| SQL conditions and statements (`lib/sqlutil`) | `SqlCondition`, `SqlGrammar`, `SqlRoundTrip`, `SqlStatements`, `SqlStatementReader`, `SqlSelectReader` |
| Session store and auth service (`lib/auth`, `apps/personal-auth`) | `Redis`, `StateToken`, `Eviction`, `StateTokenOps`, `Throttle`, `AuthModel`, `AuthService` |
| Text log encoder (`lib/zlog`) | `LogBytes`, `LogEncoder`, `LogReader`, `LogLine` |
| Service registration (`lib/etcd`) | `Lease` |
| Migration runner (`lib/sqlutil/api_migrate.go`) | `Migrate` |
| Ledger (`apps/personal-core`) and ids (`lib/snowflake`) | `Calendar`, `Cents`, `Paging`, `TransactionRow`, `Ledger`, `Lexicographic`, `SnowflakeId` |
| Runs of a state machine, optional values | `Runs`, `Options` |

## How it is built

- **SQL.** The renderers are methods proved equal to functions on condition trees. The specification is a
  separate reader: a lexer, a parser for search conditions in which AND binds tighter than OR (clause 8.12 of
  ISO/IEC 9075:1992) and the k-th `?` takes the k-th argument, and a three-valued evaluation. `WhereRoundTrip`
  connects the two for every tree. SELECT, INSERT and UPDATE have readers of their own.
- **Sessions.** `Redis.Client` executes one atomic command at a time, lets the clock move forward by any amount
  before each, and logs the store after each command. `StateTokenOps` follows `lib/auth/statetoken.go` command
  by command. `AuthService` follows the service calls; each method is proved to be the step of `AuthModel` that
  its ghost record names, logged stores included, and `AuthModel` proves what holds over every run of calls, in
  every store between two commands, and along every chain of rotations.
- **Throttle.** Each login is a step on a counter and a lock key. The bound over a sliding interval is proved by an
  invariant that says how the failures counted so far show in the store; a run that reaches the bound is given
  for every limit.
- **Log encoder.** The encoder is a class that appends to a buffer. A reader of whole lines, of the bracketed form and of
  JSON string bodies (section 7 of RFC 8259) is the other side of the round trips; UTF-8 decoding is proved to be
  the inverse of the encoding of RFC 3629.
- **Registration.** The re-registration loop, lease expiry and any number of calls of the revoke function are the steps
  of one state machine, interleaved in any way. A revoke loads the lease id in one step and sends the request in
  another; calls may fail and may have taken effect all the same. What a revoke does is stated from the events
  alone.
- **Migrations.** The apply and record steps can stop before or after they take effect. Any sequence of runs on one
  directory is a run of a state machine, about which the order and repetition of commits is proved.
- **Ledger.** A list request is followed from the 32-bit fields through the filter and the rendered statement, which the
  database reads back from text and arguments, to the rows, the page and the records scanned from its cells. The month
  window is proved against a calendar, and cents against the definition of float64 rounding with any choice between
  ties.

## What is assumed

- Redis commands are atomic and succeed, TTL is the exact remaining time, DEL of no keys does nothing, and service
  calls do not overlap.
- Token and lock expiries are positive, the token limit is at least 1, account ids are fresh, not empty and without
  `:`, and a newly issued token hash was never stored before (a JWT issued twice within a second would be the same).
- Identifiers given to Login do not start with `ip:`; the keys of an identifier and of an address would coincide.
- Table and column names in SQL texts are plain unreserved words; a selected column is any text without a comma and
  without the word FROM.
- An etcd request takes effect, if at all, before its call returns, and lease ids are not reused.
- A migration file is applied in one atomic transaction, and `schema_migrations` holds one row per file: no two file
  names are equal under the table's collation. Identifiers are compared exactly.
- Decimal columns store the nearest hundredth; float64 operations round to a nearest value.
- ORDER BY sorts the answer, LIMIT is a slice of it, and rows hold valid dates of years 1 to 9999 and amounts of at most
  2^50 hundredths, more than DECIMAL(15,2) can hold.
- The time of a log entry is printable text without quotes, brackets, backslashes and `=`, as its layout prints it.

## What the proofs found

- Live tokens are in their account's index in every store between two commands, except one: between the SET and the
  HSET of a renewal the new token is live and not yet indexed. Over a whole run there are exactly as many such stores
  as calls that handed out a token. Both size bounds hold in all of them.
- The token evicted at the limit is one of least remaining time up to the time the eviction itself takes, because
  the TTLs are read one after the other. The search is exact for all expiries if and only if the clock moves by at most
  one unit between the first and the last reading.
- With a login limit below 2 the bound on wrong passwords is 1; from 2 on it is 2·limit − 2, and that many do occur.
- A clause with empty parentheses or an empty IN list cannot be read back, at any depth, and every other clause can.
- The truncating conversion `int64(x*100 + 0.5)` of `portfolio_config.go` returns every negative amount one cent
  too high; the rounding conversion of `transaction.go` is right for both signs.
- A revoke of the service registration leaves the key exactly when the last put that took effect was made under a lease
  that still lives and is not the one the revoke loaded. So it misses the key between the put and the store of a
  re-registration, and also when the loop registered again between its load and its request, even if the loop is idle
  at both.
- A key that a revoke removed stays away in every continuation if and only if the loop has stopped.

## Model

| member | source | states |
|---|---|---|
| SqlCondition.SQL | lib/sqlutil/parentheses.go:17-31 | for every kind of condition the text and the arguments the source builds, recursively, are those of the rendering functions |
| SqlCondition.QuestionMarks | lib/sqlutil/in.go:8-24 | the placeholder loop gives one `?` per value |
| SqlCondition.ConcatSQL | lib/sqlutil/api_query.go:164-170 | the loop over conditions appends every text and every argument list in order |
| SqlCondition.SetPrefix | lib/sqlutil/eq.go:17-24 | only the connective in front changes; text after it and arguments stay |
| SqlRoundTrip.LexConcat | lib/sqlutil/parentheses.go:17-31 | texts that do not touch in one lexeme are lexed piece by piece |
| SqlRoundTrip.TrimFirst | lib/sqlutil/parentheses.go:27-30 | trimming " AND " and then " OR " removes exactly the first connective and nothing of the first body |
| SqlRoundTrip.LexInner | lib/sqlutil/parentheses.go:17-31 | the trimmed text of any list has exactly the lexemes its tree prescribes |
| SqlRoundTrip.AtomParses | lib/sqlutil/between_and.go:15-17 | a comparison, null test, IN list or BETWEEN is read back as itself with its own arguments; the AND inside BETWEEN is not taken for a connective |
| SqlRoundTrip.SearchParses | lib/sqlutil/parentheses.go:17-31 | any list is parsed, in front of any continuation, into its grouping by OR with every argument at its place, exactly when nothing in it is empty |
| SqlRoundTrip.GroupBack | lib/sqlutil/parentheses.go:17-31 | the parse tree turned back into conditions is the tree, less the first connective of each list |
| SqlRoundTrip.GroupMeans | lib/sqlutil/type.go:5-19 | the parse tree, AND before OR, evaluates on every row as the list read from left to right |
| SqlRoundTrip.WhereRoundTrip | lib/sqlutil/api_query.go:164-189 | reading the WHERE text with its arguments succeeds if and only if no parentheses and no IN list is empty; it gives the tree back and has the same truth value on every row |
| SqlStatements.Query.QueryCtx | lib/sqlutil/api_query.go:146-211 | the statement and argument list of a SELECT: WHERE arguments, then offset and count; fails exactly without a table |
| SqlSelectReader.SelectReadsBack | lib/sqlutil/api_query.go:146-211 | the SELECT text read back with its arguments gives columns, table, the WHERE clause as it reads alone, GROUP BY, ORDER BY, and offset and count from the last two arguments; it reads back if and only if no parentheses and no IN list is empty |
| SqlSelectReader.ClausesRead | lib/sqlutil/api_query.go:183-199 | the clauses after the table are told apart and each placeholder goes to its own clause |
| SqlStatements.Query.OrderBy | lib/sqlutil/api_query.go:240-247 | appends one "column direction" per order, in order |
| SqlStatements.Insert.InsertCtx | lib/sqlutil/api_insert.go:50-75 | for any iteration order of the map the k-th argument is the value of the k-th column; fails exactly without table or fields |
| SqlStatements.Insert.InsertBatchCtx | lib/sqlutil/api_insert.go:84-122 | argument i·n+j is row i's value for column j; fails exactly when table, columns or rows are missing or some row lacks a column |
| SqlStatements.BoundStep | lib/sqlutil/api_insert.go:100-113 | one more row extends the row-by-row binding |
| SqlStatements.Update.UpdateCtx | lib/sqlutil/api_update.go:67-107 | SET arguments in the order of their columns, then the WHERE arguments |
| SqlStatementReader.InsertBindsFields | lib/sqlutil/api_insert.go:63-74 | the INSERT text read back with its arguments binds each column to its own value, for every iteration order |
| SqlStatementReader.BatchBindsRows | lib/sqlutil/api_insert.go:96-118 | the batch text read back gives the columns and every row's values, using every argument once |
| SqlStatementReader.UpdateBindsFields | lib/sqlutil/api_update.go:79-105 | for every iteration order the UPDATE text read back binds each SET column to its own value and the WHERE clause to its own arguments; it reads back if and only if no parentheses and no IN list is empty |
| StateToken.SplitValue | apps/personal-auth/pkg/service/auth.go:381-386 | splitting the stored value at the first colon gives back account and role, whatever the role contains |
| StateToken.DefaultRole | apps/personal-auth/pkg/service/auth.go:381-386 | a value without a colon is an account id with the role "user" |
| StateToken.CleanedKeeps | lib/auth/statetoken.go:66-90 | cleaning keeps the store invariant and leaves an index between the live tokens after and before it |
| StateToken.RevokedKeeps | lib/auth/statetoken.go:223-246 | a revoke keeps the invariant although it may leave a stale index entry |
| StateToken.RevokedAllKeeps | lib/auth/statetoken.go:203-221 | revoking everything keeps the invariant and leaves no live token and no index entry of the account |
| StateToken.RenewedKeeps | lib/auth/statetoken.go:149-201 | the store after a renewal keeps the invariant: live tokens indexed, at most the limit live, at most limit + 1 index entries |
| StateTokenOps.CleanExpires | lib/auth/statetoken.go:66-90 | removes only dead entries and keeps all live ones, though tokens may expire between its commands |
| StateTokenOps.Count | lib/auth/statetoken.go:92-99 | the result lies between the number of live tokens at its return and at its call |
| StateTokenOps.SearchList | lib/auth/statetoken.go:101-118 | lists exactly the entries left after cleaning |
| StateTokenOps.PickOldest | lib/auth/statetoken.go:129-146 | the search gives the token chosen from readings taken in order during the call; it is dead or expires no later than any listed one, up to the time the search took |
| Eviction.BestIsFirstLeast | lib/auth/statetoken.go:129-141 | the loop ends with the first token of least reading |
| Eviction.ChosenLeastIff | lib/auth/statetoken.go:129-146 | the token chosen expires first, whatever the expiries, if and only if the clock moves by at most one unit between the first and the last reading |
| Eviction.LaterExpiringIsChosen | lib/auth/statetoken.go:131-141 | two tokens of which the one that expires later is chosen |
| StateTokenOps.EvictOldest | lib/auth/statetoken.go:120-147 | at most one token goes, one of least remaining time; unless no live token is left, one that was live is dead |
| StateTokenOps.Renew | lib/auth/statetoken.go:149-201 | the whole new store; errors for empty arguments and a dead old token; both size bounds in every store along the way, in exactly one of which the new token is live and not indexed |
| StateTokenOps.SizedWithNew | lib/auth/statetoken.go:175-187 | after SET and after HSET the bounds still hold, because the eviction step left room |
| StateTokenOps.RoomIsMade | lib/auth/statetoken.go:165-183 | after the eviction step there is room for one more live token and one more index entry |
| StateTokenOps.Revoke | lib/auth/statetoken.go:223-246 | the token is dead, no other token changed, and with `account:role` as value the account's own index keeps the stale entry |
| StateTokenOps.RevokeAll | lib/auth/statetoken.go:203-221 | no live token and no index entry of the account is left, other accounts are untouched, and every store on the way has its live tokens indexed and keeps both bounds |
| Throttle.RecordFailedAttempt | apps/personal-auth/pkg/service/auth.go:327-359 | counts one wrong password: first attempt opens the window, at the limit the lock replaces the counter; no other key changes |
| Throttle.AccountsStep | apps/personal-auth/pkg/service/auth.go:327-342 | every step keeps the relation between the failures counted in an interval and the counter and lock stored |
| Throttle.SlidingBound | apps/personal-auth/pkg/service/auth.go:221-283 | in every run, any interval as long as the lock without a success has at most 2·limit − 2 wrong passwords (1 for limits below 2), and the stored counter is below the limit after every step |
| Throttle.BoundIsReached | apps/personal-auth/pkg/service/auth.go:327-342 | for every limit of at least 2 some run reaches the bound |
| AuthModel.NextKeeps | apps/personal-auth/pkg/service/auth.go:91-612 | every completed call keeps the invariant of sessions, token values, accounts and counters |
| AuthModel.RunInvariant | lib/auth/statetoken.go:66-246 | after every call of every run live tokens are indexed, at most the limit are live per account, no index exceeds limit + 1 entries, and counters are below their limits |
| AuthModel.LoggedStores | lib/auth/statetoken.go:66-246 | over every run, every store between two Redis commands keeps both bounds, and as many miss an index entry as calls handed out a token |
| AuthModel.MissingWithin | lib/auth/statetoken.go:180-187 | a store that misses an index entry lies within a call that hands out a token, and the entry is that token's |
| AuthModel.ChainCarriesRoot | apps/personal-auth/pkg/service/auth.go:381-401 | following rotations back through the run from any stored token leads to the registration or login whose account and role its value is, however long the chain |
| AuthModel.SignedOutUntilLogin | apps/personal-auth/pkg/service/auth.go:454-573 | after a password or identifier change or a revoke-all, neither RefreshToken nor ValidateToken succeeds for the account until its next login |
| AuthModel.DeletedForever | apps/personal-auth/pkg/service/auth.go:575-612 | after DeleteAccount no later RefreshToken, ValidateToken or Login succeeds for the account |
| AuthModel.DeadForever | apps/personal-auth/pkg/service/auth.go:361-414 | a token once dead is never accepted again, over any continuation |
| AuthModel.CallsThatKill | apps/personal-auth/pkg/service/auth.go:398-498 | rotation, revocation, removal by any call such as an eviction, and the end of all sessions make the token dead |
| AuthModel.Rotation | apps/personal-auth/pkg/service/auth.go:381-401 | the new token is live with the old one's value, the old one is dead, at most one other token is lost, only at the limit and of least remaining time, and other accounts are unchanged |
| AuthModel.WrongPasswordCounts | apps/personal-auth/pkg/service/auth.go:327-359 | a wrong password counts against MaxLoginAttempts and LoginLockDuration for its identifier, against MaxIPLoginAttempts and IPLoginLockDuration for its address, and touches no other key |
| AuthModel.LoginClears | apps/personal-auth/pkg/service/auth.go:279-283 | a login removes counter and lock of its identifier and its address |
| AuthModel.KeysDiffer | apps/personal-auth/pkg/service/auth.go:344-345 | different addresses have different keys, and none is an identifier's |
| AuthModel.LoginsAreThrottled | apps/personal-auth/pkg/service/auth.go:196-342 | over every run, for every identifier, any LoginLockDuration without a login for it has at most 2·MaxLoginAttempts − 2 wrong passwords for it (1 if MaxLoginAttempts is below 2), counted over the calls themselves |
| AuthModel.AddressesAreThrottled | apps/personal-auth/pkg/service/auth.go:344-359 | the same for every address with MaxIPLoginAttempts and IPLoginLockDuration |
| AuthModel.IssuedIsStored | apps/personal-auth/pkg/service/auth.go:184-303 | every call that hands out a token leaves it indexed and stored as account:role with the configured time to live |
| AuthService.Auth.Register | apps/personal-auth/pkg/service/auth.go:91-194 | the status for missing arguments, a taken identifier and success; new rows and first token |
| AuthService.Auth.CheckLocks | apps/personal-auth/pkg/service/auth.go:211-229 | open only if no lock holds at the end of the check; refused only if one held at its start |
| AuthService.AuthTypesDiffer | apps/personal-auth/pkg/service/auth.go:77-89 | the three kinds of identifier are told apart and nothing else is one |
| AuthService.Auth.Login | apps/personal-auth/pkg/service/auth.go:196-325 | missing arguments are refused; a lock on identifier or address held throughout refuses, and none that was not held at the start; otherwise not found, frozen, wrong or right password decide; a wrong one is counted for identifier and address, a right one clears both |
| AuthService.Auth.Attempt | apps/personal-auth/pkg/service/auth.go:231-325 | the status for each of not found, frozen, wrong password and right password, and the step taken |
| AuthService.Auth.RefreshToken | apps/personal-auth/pkg/service/auth.go:361-414 | is the rotation step or changes no session; fails only when the old token is not live, and with Unauthenticated when it was not at the start |
| AuthService.Auth.RevokeToken | apps/personal-auth/pkg/service/auth.go:416-431 | is the revocation step and keeps the invariant |
| AuthService.Auth.RevokeAllTokens | apps/personal-auth/pkg/service/auth.go:433-452 | ends every session of the account in the claims |
| AuthService.Auth.ValidateToken | apps/personal-auth/pkg/service/auth.go:547-573 | succeeds exactly when the claims are good and the cleaned index is not empty |
| AuthService.Auth.UpdatePassword | apps/personal-auth/pkg/service/auth.go:454-499 | the status of every case in order; on success new hash and salt and all sessions ended |
| AuthService.Auth.ReplaceIdentifier | apps/personal-auth/pkg/model/account_auth.go:54-62 | one row replaced, no row affected, or a duplicate, each exactly when the unique key says so |
| AuthService.Auth.UpdateIdentifier | apps/personal-auth/pkg/service/auth.go:501-545 | the status of every case in order; on success the one row replaced and all sessions ended |
| AuthService.Auth.DeleteAccount | apps/personal-auth/pkg/service/auth.go:575-612 | the status of every case in order; on success the account marked deleted, its rows gone and all sessions ended |
| LogBytes.EscapeRoundTrip | lib/zlog/zap_text_encoder.go:531-629 | for every byte string the escaped text is a JSON string body that stands for the input with each ill-formed byte replaced by U+FFFD |
| LogBytes.EscapedClean | lib/zlog/zap_text_encoder.go:592-621 | no byte below 0x20 is left, and every quote stands after a backslash that is not itself escaped |
| LogBytes.SanitizedValid | lib/zlog/zap_text_encoder.go:623-629 | valid UTF-8 is not changed |
| LogBytes.Decodes | lib/zlog/zap_text_encoder.go:536-543 | every Unicode scalar value is decoded from its UTF-8 encoding, whatever follows |
| LogBytes.DecodedWasEncoded | lib/zlog/zap_text_encoder.go:536-543 | what is not ill-formed starts with the encoding of the value it gives |
| LogEncoder.TextEncoder.TryAddRuneSelf | lib/zlog/zap_text_encoder.go:592-621 | appends the escape of a byte below 0x80 and reports whether it was one |
| LogEncoder.TextEncoder.SafeAddString | lib/zlog/zap_text_encoder.go:531-546 | the loop appends exactly the escaped text |
| LogEncoder.TextEncoder.SafeAddByteString | lib/zlog/zap_text_encoder.go:559-574 | the byte-slice loop appends the same escaped text |
| LogEncoder.TextEncoder.NeedDoubleQuotes | lib/zlog/zap_text_encoder.go:576-590 | true exactly when some byte is a blank, control byte, quote, backslash, bracket or `=` |
| LogEncoder.TextEncoder.AddFields | lib/zlog/zap_text_encoder.go:631-664 | one bracketed group per field, two for an error with a verbose text, and the namespaces opened |
| LogEncoder.TextEncoder.EncodeEntry | lib/zlog/zap_text_encoder.go:406-487 | the line: header, context, fields, closing braces, stack; the encoder stays as it was |
| LogEncoder.TextIOCore.With | lib/zlog/zap_text_core.go:40-54 | a new core with the fields already encoded; the old core is untouched |
| LogEncoder.FieldsAfter | lib/zlog/zap_text_encoder.go:350-359 | encoding after a header is the header, a blank and the encoding afresh |
| LogEncoder.SplitAnywhere | lib/zlog/zap_text_core.go:40-54 | however fields are split into successive contexts and call-time fields, namespaces included, the line is the same byte for byte |
| LogReader.TokenReads | lib/zlog/zap_text_encoder.go:548-557 | a key or value, quoted or bare, is read back and nothing after it is consumed |
| LogReader.FieldsReadBack | lib/zlog/zap_text_encoder.go:495-512 | any list of string fields reads back in order, ill-formed bytes replaced |
| LogReader.ValidFieldsReadBack | lib/zlog/zap_text_encoder.go:244-247 | with valid UTF-8 the keys and values come back exactly, empty strings and special characters included |
| LogLine.QuotedIff | lib/zlog/zap_text_encoder.go:576-590 | a text is quoted exactly when it holds a byte up to 0x20, a backslash, a quote, a bracket or `=` |
| LogLine.FieldReads | lib/zlog/zap_text_encoder.go:631-664 | every kind of field reads back: strings, booleans, numbers as the number, namespaces, skipped fields, errors with their verbose text |
| LogLine.LineReadsBack | lib/zlog/zap_text_encoder.go:406-487 | every line reads back to time, level, name, caller and message, each present exactly when the entry has it, then every field, the braces of the namespaces and the stack |
| LogLine.ContextLineReadsBack | lib/zlog/zap_text_core.go:40-79 | the same when fields come from successive contexts |
| Lease.NextKeeps | lib/etcd/register.go:39-110 | every step of the loop, of expiry and of any revoke in flight keeps the registration invariant |
| Lease.IdleRegistration | lib/etcd/register.go:43-63 | in every run, while the loop is idle the key hangs on the stored lease, and the expiry of any other lease leaves it |
| Lease.HistoryExplains | lib/etcd/register.go:39-110 | in every run the key is there exactly while the lease of the last put that took effect lives, told from the events alone |
| Lease.OnlyStopEnds | lib/etcd/register.go:73-88 | a loop that has registered once ends only when it is told to stop, whatever fails |
| Lease.AfterAFailure | lib/etcd/register.go:21-36 | the first registration gives up at its first failed call; afterwards a failed call is followed by another grant |
| Lease.RevokeRemovesIff | lib/etcd/register.go:65-68 | in every run a revoke that takes effect leaves no key if and only if the last put was made under the lease it loaded, or under one that had ended |
| Lease.FreshRevokeRemovesIff | lib/etcd/register.go:65-68 | loaded after the last store, it leaves no key if and only if no put took effect since that store, or that put's lease had ended |
| Lease.IdleRevokeRemoves | lib/etcd/register.go:43-68 | loaded after the last store and taking effect while the loop is idle, it removes the key |
| Lease.RevokeCanMiss | lib/etcd/register.go:57-68 | a run in which a revoke between put and store leaves the key |
| Lease.StaleRevokeCanMiss | lib/etcd/register.go:57-68 | a run in which a revoke loads while idle and takes effect while idle and leaves the key of the registration made in between |
| Lease.RevokeCanBeUndone | lib/etcd/register.go:43-68 | a run in which the loop registers again after a revoke |
| Lease.KeyCanReturn | lib/etcd/register.go:43-110 | from every state in which the loop has not stopped, the first registration's lost lease apart, some continuation brings the key |
| Lease.GoneForGoodIff | lib/etcd/register.go:43-82 | in every run, once registered, a key that is gone stays gone in all continuations if and only if the loop has stopped |
| Migrate.FindSQL | lib/sqlutil/api_migrate.go:39-47 | the inner loop finds whether a block has a line that is no comment |
| Migrate.SplitStatements | lib/sqlutil/api_migrate.go:32-53 | the result is, in order, exactly the blocks between semicolons, white space cut off their ends, that have a line which after its leading white space is not empty and starts with neither `--` nor `#` |
| Migrate.StatementsExact | lib/sqlutil/api_migrate.go:32-53 | the same of the specification, with the positions of the blocks |
| Migrate.TrimSpaceCuts | lib/sqlutil/api_migrate.go:35-35 | trimming cuts white space off both ends and nothing else |
| Migrate.TrimUnique | lib/sqlutil/api_migrate.go:35-35 | only one text is so trimmed |
| Migrate.SplitPieces | lib/sqlutil/api_migrate.go:34-40 | the parts of a split are exactly the pieces between separators |
| Migrate.StatementsClean | lib/sqlutil/api_migrate.go:32-53 | every statement is trimmed, not empty, free of semicolons and has such a line |
| Migrate.SplitJoin | lib/sqlutil/api_migrate.go:33-34 | the blocks joined by semicolons are the file |
| Migrate.Database.Apply | lib/sqlutil/api_migrate.go:72-88 | success means the content is committed or holds no statement, wherever the step stopped |
| Migrate.Database.Record | lib/sqlutil/api_migrate.go:120-125 | success means the file is recorded with its checksum; no other file's record changes |
| Migrate.Database.Migrate | lib/sqlutil/api_migrate.go:175-231 | a run that returns nil leaves every file recorded with the checksum of its content, and every file not so recorded before committed; a run that starts with all recorded commits nothing and succeeds |
| Migrate.RecordedWasCommitted | lib/sqlutil/api_migrate.go:175-215 | over any runs a checksum is recorded only for content that was committed or holds no statement |
| Migrate.CurrentStays | lib/sqlutil/api_migrate.go:175-215 | a file once recorded stays recorded |
| Migrate.CommitsInOrder | lib/sqlutil/api_migrate.go:175-215 | commits of all runs together follow the file names, and a recorded file is never committed again |
| Calendar.NextMonth | apps/personal-core/pkg/model/transaction.go:114-114 | the month after begins where this one ends, leap years and December included |
| Calendar.DayZero | apps/personal-core/pkg/model/transaction.go:114-114 | day zero of the next month is the last day of this one |
| Calendar.Gregorian | apps/personal-core/pkg/model/transaction.go:114-114 | four centuries have 146097 days, 719162 days lie before 1970, and leap days are where the Gregorian calendar has them |
| Calendar.TextOrder | apps/personal-core/pkg/model/transaction.go:113-115 | dates as text compare exactly as in the calendar |
| Calendar.TextLayout | apps/personal-core/pkg/model/transaction.go:113-115 | ten characters with dashes at the fifth and eighth; the digits between read as year, month and day |
| Calendar.MonthWindow | apps/personal-core/pkg/model/transaction.go:112-116 | for years 1 to 9999 the text range of a month holds exactly its valid dates |
| Calendar.ExactlyOneMonth | apps/personal-core/pkg/model/transaction.go:112-116 | every date is in exactly one month's range |
| Cents.RoundError | apps/personal-core/pkg/model/transaction.go:97-97 | any nearest float64 of a value up to 2^(e+53) is within half of 2^e |
| Cents.NearestExists | apps/personal-core/pkg/model/transaction.go:97-97 | every real number has a nearest float64 |
| Cents.CentsSurvive | apps/personal-core/pkg/model/transaction.go:71-97 | every amount up to 2^50 cents either way survives division, column, reading and math.Round |
| Cents.GoRound | apps/personal-core/pkg/model/transaction.go:71-71 | the nearest whole number, halves away from zero |
| Cents.TruncatingRead | apps/personal-core/pkg/model/portfolio_config.go:41-73 | the truncating read gives the amount back if and only if it is not negative, and one cent more otherwise, with or without a fused multiply-add |
| Cents.MinusOneReadsHigh | apps/personal-core/pkg/model/portfolio_config.go:41-41 | -100 cents is read as -99 |
| Paging.OffsetExact | apps/personal-core/pkg/model/transaction.go:144-150 | for 32-bit requests the offset product fits 64 bits and is exact |
| Paging.Wrapped | apps/personal-core/pkg/model/transaction.go:145-145 | the value of the signed width that differs by a multiple of twice its half |
| Paging.PagesComplete | apps/personal-core/pkg/model/transaction.go:144-150 | pages 1 to ⌈total/size⌉ concatenate to the whole list, all but the last are full, later ones are empty |
| Ledger.BuildTransactionFilter | apps/personal-core/pkg/model/transaction.go:107-121 | the condition list for account, undeleted, month and category, whose rows `Ledger.FilterSelects` gives |
| Ledger.FilterSelects | apps/personal-core/pkg/model/transaction.go:107-121 | the rendered filter can be read, and read back it is true exactly of the account's undeleted rows, of the month if year and month are positive, and of the category if it is |
| Ledger.SortedUnique | apps/personal-core/pkg/model/transaction.go:142-142 | given rows have only one listing in that order, however the database sorts, so every page is cut from the same sequence |
| Ledger.OrderedSorted | apps/personal-core/pkg/model/transaction.go:142-142 | with distinct ids the three ORDER BY items sort any table by a total order |
| Ledger.CountQuery | apps/personal-core/pkg/model/transaction.go:126-136 | the statement built, read by the database from text and arguments, counts the rows the clause picks |
| Ledger.PageQuery | apps/personal-core/pkg/model/transaction.go:138-160 | the statement built, read by the database from text and arguments, returns the cells of the ordered rows the clause picks, cut to the page with the offset in 64-bit arithmetic, and these scan to the records of the rows |
| TransactionRow.ScanTransactions | apps/personal-core/pkg/model/transaction.go:75-89 | the loop scans every row by position, or fails exactly when some row has other types |
| TransactionRow.ScanGivesRecord | apps/personal-core/pkg/model/transaction.go:63-89 | scanning the twelve columns in the order selected gives every field as stored, with the amount in whole cents through float64 |
| Ledger.SelectTransactions | apps/personal-core/pkg/model/transaction.go:123-162 | the page and the total of the rows the filter picks, for every filter |
| Ledger.FoundRows | apps/personal-core/pkg/model/transaction.go:123-162 | these rows are sorted and are exactly those the clause is true of |
| Ledger.FoundByMonth | apps/personal-core/pkg/model/transaction.go:107-121 | for months 1 to 12 of years 1 to 9999 every row found has that year and month; without a year or a month rows of every date are found |
| Ledger.FoundInOrder | apps/personal-core/pkg/model/transaction.go:142-142 | the rows come by sort order, then latest date, then highest id |
| Ledger.ListTransactions | apps/personal-core/pkg/service/cash_flow.go:243-287 | the records of the page and the 32-bit total; pages below 1 are the first page, sizes below 1 list everything |
| Ledger.PagesListEverything | apps/personal-core/pkg/service/cash_flow.go:249-264 | for any table with distinct ids, asking for as many pages as the reported total makes lists, once and in order, the account's undeleted rows of the month and category asked for, or of every date without year or month; any later page is empty |
| SnowflakeId.PadID | lib/snowflake/id.go:33-52 | the loop pads with zeros to 19 characters |
| SnowflakeId.IdsSortAsNumbers | lib/snowflake/id.go:33-52 | for ids below 2^63 the texts have length 19, differ when the ids differ, and compare as the numbers do |
| SnowflakeId.IdReadsBack | lib/snowflake/id.go:33-52 | the 19 characters are decimal digits that read as the id |

## Left out

- Overlapping service calls, failing Redis commands and Redis' rounding of TTLs: the session and throttle results are for sequential calls that succeed.
- JWT signing and parsing, hashing, salts: a token comes in as its hash or parsed claims, so the checks for an empty or unparsable token string are not in `AuthService`.
- Login history rows and log messages: written and never read by the calls modelled.
- Database errors other than duplicate keys and missing rows.
- The database answers of `Ledger` cover statements on the transactions table; that a query fails is not modelled.
- StateTokenOps.Renew: a hash that was stored before and a value that names another account are left out; the service never passes the second, and the first is the freshness assumed above.
- AuthService.Auth.Login: identifiers that start with `ip:` are left out, because their counter and lock are also those of an address with a limit of its own.
- AuthService.Auth.Attempt: the same identifiers are left out.
- SqlCondition.SetPrefix: the source changes the condition in place; conditions are values here, so one shared by two lists is not captured.
- DELETE and the raw query API of `lib/sqlutil`: the same condition loop as SELECT and UPDATE.
- Arrays, objects, reflected values, floats, durations and times in the text encoder: nested forms go through library marshalers.
- `LogReader`: reads string fields; the groups of namespaces and skipped fields are not `key=value` groups.
- Lease: the background loop and the revoke function run concurrently in the source, so they are steps of a state machine on values and not methods.
- Migrate.Database: reading and sorting the directory is taken as a listing in name order, the checksum as a function; creating the database and the table, and changes of the directory between runs, are not modelled.
- Migration files that are not valid UTF-8.
- Months above 12 and years above 9999 in a filter: the query is built as the source builds it, but which rows it means is stated for calendar months only.
- Cents.CentsSurvive: amounts beyond 2^50 cents, which the DECIMAL(15,2) columns cannot hold, are not covered.
- HTTP handlers, gRPC adapters, providers, start-up, connection retry, configuration, file locks, tracing and the web pages: plumbing around the core.
