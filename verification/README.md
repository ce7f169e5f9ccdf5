# Roviq: verified models of the gateway's protocols, scanners and rules

This project models the parts of the Roviq API gateway and its scripts that hold real
state, concurrency, parsing or arithmetic, and proves what they promise. `dafny verify
dfyconfig.toml` checks it.

| file | what it models |
|---|---|
| `cache_aside.dfy`, `invalidation.dfy`, `gateway.dfy` | the read-through Redis cache as interleaved atomic accesses over a clock, what deleting an entry achieves, and the code of a reader over it |
| `session_guard.dfy`, `cached_services.dfy` | the impersonation session guard against `endImpersonation` and `suspendReseller`; role abilities and entitlements |
| `audit_insert.dfy`, `audit_pipeline.dfy`, `audit_consumer.dfy` | the audit consumer: batched insert, at-least-once delivery with retries and dead letters, the code of the consumer |
| `scanner.dfy`, `sql_lexer.dfy`, `sql_splitter.dfy` | a reference lexer for SQL scripts and the cursor-and-accumulator splitter proved against it |
| `comment_stripper.dfy` | the comment stripper of the emit guard, offset by offset |
| `runs.dfy` | runs of services whose calls are atomic, and induction over them |
| `refresh_tokens.dfy`, `password_fence.dfy` | refresh-token rotation, replay detection and keep-alive (the pattern of section 4.14.2 of RFC 9700), and the password fence with its calls taken apart |
| `login_lockout.dfy` | the timed failure counter and lock marker, against a plain log of attempts |
| `keyset_paging.dfy` | keyset paging of the audit log and its cursors |
| `canonical_json.dfy`, `audit_diff.dfy` | comparing JSON by sorted text (section 4 of RFC 8259), and the diff of two records |
| `calendar.dfy`, `partitions.dfy` | JavaScript's UTC calendar (section 21.4.1 of ECMA-262), and monthly partitions with retention |
| `impersonation.dfy` | OTP, one-time code and access token of an impersonation |
| `reseller.dfy` | the life of a reseller and its institutes |
| `json_logic.dfy`, `dimensions.dfy` | the compiler from JsonLogic to conditions, both meanings, and dimension extraction |

State machines are values with a step function; the services are classes whose methods
follow the code's order of checks and writes, and are tied to those steps. Each Redis or
database access is one atomic step; a Redis key set at t for n is live while now < t + n.
Random ids, hashes and signatures are fresh or injective values.

## What the proofs found

The code is modelled as it is. Where a promise does not hold of it, the exact condition
under which it does is proved:

- Deleting a cached entry after a write makes all later readers current exactly when no read is
  in flight between its SELECT and its SET with an older value.
- The 70 s tombstone covers late cache fills of up to 10 s and no more.
- An audit message ends up with the stream, never to be delivered again, exactly when each
  of its four deliveries was let go of unresolved. That takes a fault: the process dying, or a
  dead-letter publish that throws, which lets go of the rest of its batch too. Four restarts
  suffice; failing inserts alone never do. The row may be stored all the same. The dead letter
  of a malformed message has no payload.
- A refresh token made in the same millisecond as a password change passes the fence
  until the revocation runs. The revocation ends every earlier session exactly when no refresh
  in flight holds a token of the user. A login keeps a single live token while refreshes
  interleave as long as none validates a token that another has validated and not renewed
  yet. Once one has, and only then, both can get a new one.
- `revokeAllOtherSessions` does not check whose token it is given. Suspending a reseller
  leaves no revocation reason, so the replay of such a token revokes every session of the
  member of staff; the schema's comment describes a reason for it. A replay goes unnoticed
  exactly when that very token was logged out, or its session revoked by its owner, after it
  had been revoked.
- A page cursor carries whole milliseconds: rows that are closer than that and do not have
  the emitter's millisecond times are skipped: exactly those in the gap of a cursor on the way.
  `totalCount` counts what lies below the cursor.
- Date.UTC takes the years 0 to 99 for 1900 to 1999; partition names parse back only for
  the years 1000 to 9999.
- A wrong OTP in the last half second gives the OTP five more minutes; tokens still expire
  within their session. An ended session still yields a token exactly when a code
  for it is waiting; an OTP that is waiting leads to none.
- `{">": [x, null]}` and the other order comparisons compile to IS NULL; right operands
  that are not literal are compared as they stand; a reference with fields beside `var` compiles
  but is a plain value to JsonLogic; an empty `and` holds; `!` of a null dimension selects
  nothing in SQL.

## Model

| member | source | states |
|---|---|---|
| `CacheAside.FreshAlways` | libs/backend/casl/src/ability.factory.ts:67-82 | in every state of every interleaving, each value that the cache or a reader holds was in the database recently enough: less than TTL plus latency before the reader began, counting what its cache entry has left |
| `CacheAside.BoundedStaleness` | libs/backend/casl/src/ability.factory.ts:67-86 | a returned value was the database value at some moment of the run less than TTL + fill latency before the reader's first step, whatever writes, deletions and other readers interleave |
| `CacheAside.StalenessIsTight` | libs/backend/casl/src/ability.factory.ts:67-82 | the bound is reached: for every TTL and latency some run returns a value that was last in the database TTL + latency - 1 before the reader began |
| `CacheAside.ClockMonotone` | libs/backend/casl/src/ability.factory.ts:80 | time only moves forward along a run |
| `Invalidation.InvalidationIsCleanIff` | libs/backend/casl/src/ability.factory.ts:84-86 | after the DEL of an invalidation every reader that has no value yet gets one that the database has held since, whatever happens, exactly when no read is in flight, between its SELECT and its SET, with another value |
| `Invalidation.CleanAfterDelete` | libs/backend/entitlements/src/entitlement.service.ts:71-75 | the one direction, in every run and for a DEL anywhere in it |
| `Invalidation.OldValueReturns` | libs/backend/entitlements/src/entitlement.service.ts:43-52 | the other: a read in flight puts its old value back, and the next reader gets it, whatever the lifetime |
| `Gateway.Store.ReadDatabase` | libs/backend/casl/src/ability.factory.ts:75-80 | the miss path of a read-through read, step by step among other actors: SELECT, then SET unless there is nothing to store |
| `Gateway.Store.LookUpOrLoad` | libs/backend/casl/src/ability.factory.ts:70-81 | GET, and on a miss the database path, with what the run records of each access |
| `Gateway.Store.ReadCached` | libs/backend/casl/src/ability.factory.ts:70-81 | GET, and on a miss the database path; the value returned is the one its run records |
| `Gateway.Store.ReadThrough` | apps/api-gateway/src/auth/middleware/impersonation-session.guard.ts:88-132 | the same with the tombstone looked at first |
| `SessionGuard.SaneAlways` | apps/api-gateway/src/auth/middleware/impersonation-session.guard.ts:97-132 | in every reachable state a cached session expires within 60 s, and a writer that may set the tombstone has ended the row |
| `SessionGuard.EndedForever` | apps/api-gateway/src/auth/impersonation.service.ts:498-506 | a session row that is ended never becomes live again |
| `SessionGuard.SettledStep` | apps/api-gateway/src/auth/middleware/impersonation-session.guard.ts:88-150 | one step of any actor keeps what holds after the tombstone was set |
| `SessionGuard.SettledAfterMark` | apps/api-gateway/src/auth/middleware/impersonation-session.guard.ts:88-150 | from the tombstone on, late readers and the cache hold nothing live that outlasts the tombstone |
| `SessionGuard.LateGuardsTurnedAway` | apps/api-gateway/src/auth/middleware/impersonation-session.guard.ts:83-150 | if no guard takes more than 10 s from its database read to its cache fill, every guard whose first step comes after the tombstone write rejects, for ever, also after the tombstone has expired |
| `SessionGuard.TombstoneHoldsIffWithinSlack` | apps/api-gateway/src/auth/impersonation.service.ts:508-524 | that holds for a bound on the latency exactly when the bound is at most 70 - 60 = 10 s |
| `SessionGuard.LateFillRunAdmits` | apps/api-gateway/src/auth/impersonation.service.ts:508-524 | the run for a latency just over 10 s in which a guard that starts after the tombstone was set, and has expired, is let through |
| `SessionGuard.SuspendedSessionTurnedAway` | apps/api-gateway/src/admin/reseller/admin-reseller.service.ts:432-458 | without a tombstone, guards that start 60 s plus the latency after `suspendReseller` has ended a session reject it |
| `SessionGuard.CanActivate` | apps/api-gateway/src/auth/middleware/impersonation-session.guard.ts:83-150 | the guard as a sequence of Redis and database accesses among other actors: it accepts exactly when no tombstone was live at its first step and the row returned is there, not ended, not revoked and expires no earlier than the clock |
| `SessionGuard.ExpiredSessionTurnedAway` | apps/api-gateway/src/auth/middleware/impersonation-session.guard.ts:140-145 | no guard that returns after the session's expiry lets the request through, whatever the cache holds |
| `SessionGuard.Lifetimes` | apps/api-gateway/src/auth/middleware/impersonation-session.guard.ts:131 | 60 s for the cached session and 70 s for the tombstone |
| `SessionGuard.EndImpersonation` | apps/api-gateway/src/auth/impersonation.service.ts:470-524 | its errors, and what its run records: the row updated, then the cache entry deleted and the tombstone set, in either order |
| `SessionGuard.DeleteAndMark` | apps/api-gateway/src/auth/impersonation.service.ts:521-524 | both Redis writes happen, in the order asked for, with others acting between them; `Promise.all` leaves the order open |
| `CachedServices.ReturnedIsRecent` | libs/backend/casl/src/ability.factory.ts:67-86 | a value returned by a cache without tombstones was current within TTL + latency |
| `CachedServices.NeverMarkedNoTombstone` | libs/backend/casl/src/ability.factory.ts:67-86 | a service that sets no tombstone never finds one |
| `CachedServices.Lifetime` | libs/backend/casl/src/ability.factory.ts:80 | a stored value lives for 300 s |
| `CachedServices.GetRoleAbilities` | libs/backend/casl/src/ability.factory.ts:67-82 | role abilities were in the database less than 300 s plus latency before the call began |
| `CachedServices.GetEntitlements` | libs/backend/entitlements/src/entitlement.service.ts:33-53 | unlimited without the enterprise edition; otherwise in the database less than 300 s plus latency before the call began |
| `CachedServices.CheckLimit` | libs/backend/entitlements/src/entitlement.service.ts:59-69 | the verdict is the one, for each resource by its own limit, for limits that were current within 300 s plus latency; no limit permits everything |
| `AuditInsert.Pushed` | apps/api-gateway/src/audit/audit.consumer.ts:280-301 | the 20 values pushed for an event are its columns in the order of the column list |
| `AuditInsert.BatchInsert` | apps/api-gateway/src/audit/audit.consumer.ts:243-309 | placeholder `$k` binds column (k - 1) mod 20 of event (k - 1) / 20, and the rows the database receives are those of the events, in order |
| `AuditInsert.NumberedBinds` | apps/api-gateway/src/audit/audit.consumer.ts:271-302 | numbering the placeholders row by row and concatenating the values binds every cell in its place |
| `AuditInsert.InsertedKeys` | apps/api-gateway/src/audit/audit.consumer.ts:304-309 | ON CONFLICT DO NOTHING: afterwards exactly the old and the new pairs of id and creation time are there, each with one row, and old rows are untouched |
| `AuditInsert.PassedOverIff` | apps/api-gateway/src/audit/audit.consumer.ts:304-309 | an event is passed over exactly when a row before it, old or of the same statement, has both its id and its creation time; any other becomes the next row |
| `AuditInsert.RowByField` | apps/api-gateway/src/audit/audit.consumer.ts:245-301 | the row of an event, all twenty columns written out |
| `AuditInsert.InsertTwice` | apps/api-gateway/src/audit/audit.consumer.ts:239-242 | inserting a redelivered batch again changes nothing |
| `AuditInsert.RowDeterminesEvent` | apps/api-gateway/src/audit/audit.consumer.ts:245-301 | no two events share a row: the columns carry all of an event |
| `AuditPipeline.NothingLost` | apps/api-gateway/src/audit/audit.consumer.ts:152-236 | in every interleaving of deliveries, timer flushes, failed inserts, failed dead-letter publishes, redeliveries and restarts: an acked message has a row with its id and its creation time, a termed one a dead letter of it, any other is still owned by the stream |
| `AuditPipeline.RowsAreUniqueAndGenuine` | apps/api-gateway/src/audit/audit.consumer.ts:304-309 | no two rows agree in both id and creation time, and every row comes from a published event |
| `AuditPipeline.EachDeliveryJoinsOneBatch` | apps/api-gateway/src/audit/audit.consumer.ts:185-209 | what was received is exactly the batches taken, in order, followed by the buffer; every batch ever taken has 1 to 50 messages |
| `AuditPipeline.StepLater` | apps/api-gateway/src/audit/audit.consumer.ts:207-236 | no step removes a row or a dead letter or changes a resolution |
| `AuditPipeline.ResolutionIsFinal` | apps/api-gateway/src/audit/audit.consumer.ts:211-234 | once acked or termed, a message stays so |
| `AuditPipeline.ExhaustedForever` | apps/api-gateway/src/audit/audit.consumer.ts:136-141 | a message whose deliveries are used up, with none of them held, is never delivered again: it stays owned by the stream for ever |
| `AuditPipeline.ExhaustedIff` | apps/api-gateway/src/audit/audit.consumer.ts:136-141 | over every run: a message gets there exactly when each of its four deliveries was let go of while the stream still owned it |
| `AuditPipeline.DroppedBy` | apps/api-gateway/src/audit/audit.consumer.ts:215-234 | a delivery is let go of that way only by a nak, before its third, or when the process dies or a dead-letter publish throws |
| `AuditPipeline.ThrowDropsTheRest` | apps/api-gateway/src/audit/audit.consumer.ts:218-230 | a dead-letter publish that throws lets go of exactly the messages of its batch from that one on |
| `AuditPipeline.NoFaultNoExhaustion` | apps/api-gateway/src/audit/audit.consumer.ts:152-236 | so in a run in which the process does not die and no dead-letter publish throws, no message ends that way, however often inserts fail |
| `AuditPipeline.EachFaultExhausts` | apps/api-gateway/src/audit/audit.consumer.ts:136-141 | each of these faults by itself suffices: restarts, a death between insert and ack, a throwing publish for an event or for malformed JSON; the row is stored exactly when an insert took effect |
| `AuditPipeline.ExecInv` | apps/api-gateway/src/audit/audit.consumer.ts:152-236 | every run keeps the invariants of the stream, the table and the process |
| `AuditConsumer.Consumer.HandleOne` | apps/api-gateway/src/audit/audit.consumer.ts:217-233 | after a failed insert one message is nak-ed, or dead-lettered and termed; when the dead-letter publish throws, the rest of the batch is left alone |
| `AuditConsumer.Consumer.HandleEach` | apps/api-gateway/src/audit/audit.consumer.ts:215-235 | the whole failed batch, one message after the other, while others act |
| `AuditConsumer.Consumer.RunFlush` | apps/api-gateway/src/audit/audit.consumer.ts:211-235 | insert and ack all, or handle each: on success all are resolved and stored; otherwise all that had used up their retries are resolved, or a dead-letter publish of one of them threw |
| `AuditConsumer.Consumer.FlushBuffer` | apps/api-gateway/src/audit/audit.consumer.ts:207-236 | `flush`: the buffer is taken whole, and nothing is lost by it: what is resolved has a row of its id and creation time, or its dead letter |
| `AuditConsumer.Consumer.OnMessage` | apps/api-gateway/src/audit/audit.consumer.ts:159-199 | the body of the consume loop: a malformed message goes to the dead letters or the loop ends, others are buffered, and a full buffer is flushed with what a flush promises |
| `Scanner.PiecesSplit` | scripts/db-reset.ts:412-433 | the first pieces of a text are what their own text scans to, and so are the rest |
| `Scanner.Continue` | scripts/db-reset.ts:412-433 | text that no step can reach into is scanned after the text before it as by itself |
| `SqlLexer.SegmentsJoin` | scripts/db-reset.ts:407-438 | the untrimmed segments joined by semicolons give back the script |
| `SqlLexer.SegsByCut` | scripts/db-reset.ts:424-428 | a segment ends exactly at the first semicolon read in code |
| `SqlLexer.CutSplit` | scripts/db-reset.ts:424-428 | a cut separates a segment that ends in code from a rest that is read from code |
| `SqlLexer.KeptSolid` | scripts/db-reset.ts:425-437 | every statement is non-empty, trimmed, and contains no cut; all but the last end in code or in a line comment |
| `SqlLexer.StatementsOfJoin` | scripts/db-reset.ts:407-438 | such statements joined by newline, semicolon, newline are found again |
| `SqlLexer.ResplitStable` | scripts/db-reset.ts:407-438 | splitting a script, rejoining its statements and splitting again gives the same statements |
| `SqlLexer.StatementsAreTrimmed` | scripts/db-reset.ts:425-437 | each statement is a segment of the script without white space and line terminators at its ends, those of ECMA-262 by code point; a segment yields none exactly when it is wholly of those |
| `SqlLexer.NothingPrintableLost` | scripts/db-reset.ts:407-438 | the characters from ! to ~ of the statements are, in order, those of the script without its cuts |
| `SqlLexer.LineCommentIsSpan` | scripts/db-reset.ts:340-349 | two dashes and everything to the end of the line are one span |
| `SqlLexer.BlockCommentIsSpan` | scripts/db-reset.ts:352-361 | a slash and a star and everything to the first star and slash are one span |
| `SqlLexer.QuotedStringIsSpan` | scripts/db-reset.ts:364-381 | a quoted string, its quotes doubled, is one span, whatever it contains |
| `SqlLexer.DollarQuoteIsSpan` | scripts/db-reset.ts:384-400 | a tag and everything to its first repetition are one span |
| `SqlLexer.SpanEndsNothing` | scripts/db-reset.ts:412-433 | no segment ends inside a span |
| `SqlLexer.PlainCharacter` | scripts/db-reset.ts:412-433 | any other character stands for itself, and a semicolon, and nothing else, is a cut |
| `SqlLexer.DollarTagIff` | scripts/db-reset.ts:385-388 | a text opens a dollar quote with a tag exactly when it begins with two dollars around nothing or an identifier |
| `SqlSplitter.IndexOf` | scripts/db-reset.ts:341 | the first occurrence at or after a position, and none when it says none |
| `SqlSplitter.Parser.SkipLineComment` | scripts/db-reset.ts:340-349 | jumping over a line comment leaves the segments still to come unchanged |
| `SqlSplitter.Parser.SkipBlockComment` | scripts/db-reset.ts:352-361 | the same for a block comment, closed or not |
| `SqlSplitter.Parser.ConsumeSingleQuotedString` | scripts/db-reset.ts:364-381 | the same for a quoted string with doubled quotes |
| `SqlSplitter.Parser.TryConsumeDollarQuote` | scripts/db-reset.ts:384-400 | the same for a dollar-quoted block; it matches exactly when a tag is there |
| `SqlSplitter.Parser.Advance` | scripts/db-reset.ts:412-433 | one turn of the loop moves forward and yields a segment exactly when one ends |
| `SqlSplitter.SplitSqlStatements` | scripts/db-reset.ts:407-438 | the splitter returns exactly the statements of the reference lexer |
| `CommentStripper.NoCommentsLeft` | scripts/check-direct-nats-emit.ts:139-170 | scanned again, stripped text has no comment left: where one was are blanks and its newlines, and every other character is the same and read in the same mode |
| `CommentStripper.LiteralsUnchanged` | scripts/check-direct-nats-emit.ts:115-136 | characters inside string and template literals stay as they are |
| `CommentStripper.QuotedIsNoComment` | scripts/check-direct-nats-emit.ts:115-136 | between two of the same quotes, single, double or backtick, nothing is a comment |
| `CommentStripper.EscapeIsNoComment` | scripts/check-direct-nats-emit.ts:121-127 | a backslash in a literal takes the next character along |
| `CommentStripper.LineIsComment` | scripts/check-direct-nats-emit.ts:91-99 | from two slashes in code to the end of the line everything is a comment |
| `CommentStripper.BlockIsComment` | scripts/check-direct-nats-emit.ts:101-113 | from a slash and a star in code to the first star and slash after them everything is a comment |
| `CommentStripper.PlainIsNoComment` | scripts/check-direct-nats-emit.ts:141-170 | any other character of code is code |
| `CommentStripper.StrippingIsIdempotent` | scripts/check-direct-nats-emit.ts:141-170 | stripped text is its own stripped text, and no other text is |
| `CommentStripper.SameLine` | scripts/check-direct-nats-emit.ts:138-141 | an offset names the same line in the stripped text and in the original |
| `CommentStripper.LastLines` | scripts/check-direct-nats-emit.ts:174-179 | the two lines that `hasOverride` looks at, by position |
| `CommentStripper.OverrideLooksAtMatchLine` | scripts/check-direct-nats-emit.ts:172-180 | a match found in stripped text makes `hasOverride` look at its own line and the one before it in the original |
| `CommentStripper.SkipLineComment` | scripts/check-direct-nats-emit.ts:91-99 | writes the stripped text up to the end of the line |
| `CommentStripper.SkipBlockComment` | scripts/check-direct-nats-emit.ts:101-113 | writes the stripped text through the close, newlines kept |
| `CommentStripper.ReadStringLiteral` | scripts/check-direct-nats-emit.ts:115-136 | writes the literal unchanged, escapes included |
| `CommentStripper.StripComments` | scripts/check-direct-nats-emit.ts:141-170 | writes exactly the reference scanner's stripped text |
| `RefreshTokens.CoerceSpelling` | apps/api-gateway/src/auth/repositories/refresh-token.drizzle-repository.ts:23-47 | reading a stored reason undoes writing it |
| `RefreshTokens.CoerceRevokedReason` | apps/api-gateway/src/auth/repositories/refresh-token.drizzle-repository.ts:42-47 | any other stored text is read as no reason |
| `RefreshTokens.ServeLater` | apps/api-gateway/src/auth/auth.service.ts:481-637 | every call keeps the invariant, and no row changes its owner, its hash or its lineage, is un-revoked, or turns from another reason to rotation |
| `RefreshTokens.OneLivePerLineage` | apps/api-gateway/src/auth/auth.service.ts:481-590 | in every reachable state each login lineage has at most one unrevoked token |
| `RefreshTokens.RefreshReplacesOne` | apps/api-gateway/src/auth/auth.service.ts:494-576 | a successful refresh retires exactly the presented, live token and creates exactly one, in the same lineage and of the same scope |
| `RefreshTokens.LiveAfterIff` | apps/api-gateway/src/auth/auth.service.ts:422-458 | exactly which tokens are live after a login, a logout, a revocation, a password change, a switch of institute or the suspension of a reseller |
| `RefreshTokens.LiveAfterRefresh` | apps/api-gateway/src/auth/auth.service.ts:481-590 | and which after a refresh, by its answer |
| `RefreshTokens.Replies` | apps/api-gateway/src/auth/auth.service.ts:422-637 | what each call other than a refresh or a password change answers |
| `RefreshTokens.NewLineage` | apps/api-gateway/src/auth/auth.service.ts:448-458 | a login and a switch of institute begin a lineage of their own |
| `RefreshTokens.AcceptedIff` | apps/api-gateway/src/auth/auth.service.ts:773-805 | exactly when a token is accepted: signed, stored with that hash, unrevoked, unexpired and not behind the password fence |
| `RefreshTokens.IssuedAcceptedIff` | apps/api-gateway/src/auth/auth.service.ts:953 | over runs: a token issued by a login, a switch or a refresh is accepted at a later state exactly when it is still unrevoked, not behind the password fence, and at most seven days old in milliseconds |
| `RefreshTokens.IssuedRow` | apps/api-gateway/src/auth/auth.service.ts:940-964 | the row of a token just issued: its owner, its expiry seven days on, and its scope, that of the token presented after a refresh and Institute after a switch |
| `RefreshTokens.RefreshAnswers` | apps/api-gateway/src/auth/auth.service.ts:773-805 | what a refresh answers, by the row of the token presented |
| `RefreshTokens.ReasonsWritten` | apps/api-gateway/src/auth/auth.service.ts:481-707 | the time and the reason that each call writes on a row it revokes |
| `RefreshTokens.PasswordDated` | apps/api-gateway/src/auth/auth.service.ts:677-707 | a password change succeeds exactly for a known user with the right password, and is dated by the clock |
| `RefreshTokens.RevokedNeverUsableAgain` | apps/api-gateway/src/auth/auth.service.ts:784-792 | once revoked, a token is revoked in every later state and never yields a token |
| `RefreshTokens.ReplayRevokesEverything` | apps/api-gateway/src/auth/auth.service.ts:784-790 | replaying a token retired by rotation, or without a reason, leaves that user with no unrevoked token and nobody else changed |
| `RefreshTokens.NeverReclassified` | apps/api-gateway/src/auth/repositories/refresh-token.drizzle-repository.ts:283-318 | a token revoked for another reason never becomes one revoked by rotation |
| `RefreshTokens.ReplayAfterRevokeAllOthers` | apps/api-gateway/src/auth/auth.service.ts:784-792 | whatever happened since, presenting a token that `revokeAllOtherSessions` revoked changes nothing |
| `RefreshTokens.KeptTokenStaysLive` | apps/api-gateway/src/auth/auth.service.ts:627-637 | the kept token is then the user's only live one and stays live until a call touches it |
| `RefreshTokens.KeepsASessionIffOwn` | apps/api-gateway/src/auth/auth.service.ts:627-637 | the user keeps a session exactly when the token given was their own, which is not checked |
| `RefreshTokens.OnlyOverwritesReclassify` | apps/api-gateway/src/auth/repositories/refresh-token.drizzle-repository.ts:283-318 | of all calls only a logout by id and the owner's revocation of that session make a replay of a revoked token go unnoticed |
| `RefreshTokens.ReplayDetectedIff` | apps/api-gateway/src/auth/auth.service.ts:784-792 | over whole runs: presenting a token rotated away, or revoked without a reason, is answered with ReuseDetected and ends all sessions of its owner exactly when no such call came in between; otherwise nothing changes |
| `RefreshTokens.SuspendedStaffReplayCascades` | apps/api-gateway/src/admin/reseller/admin-reseller.service.ts:419-430 | tokens revoked by suspending a reseller carry no reason: however late, one replay ends every session of that member of staff, under the same exact condition |
| `RefreshTokens.AuthService.Revoke` | apps/api-gateway/src/auth/repositories/refresh-token.drizzle-repository.ts:283-290 | unconditional overwrite of one row |
| `RefreshTokens.AuthService.RevokeAllForUser` | apps/api-gateway/src/auth/repositories/refresh-token.drizzle-repository.ts:292-299 | exactly the user's unrevoked rows are revoked |
| `RefreshTokens.AuthService.RevokeAllOtherForUser` | apps/api-gateway/src/auth/repositories/refresh-token.drizzle-repository.ts:301-318 | exactly the user's unrevoked rows but one are revoked |
| `RefreshTokens.AuthService.FindRowByHash` | apps/api-gateway/src/auth/repositories/refresh-token.drizzle-repository.ts:173-182 | the one unrevoked row with a hash, and none exactly when there is none |
| `RefreshTokens.AuthService.IssueTokens` | apps/api-gateway/src/auth/auth.service.ts:911-966 | one row is inserted, and the lineage it continues had no live token |
| `RefreshTokens.AuthService.LoadAndValidateStoredRefreshToken` | apps/api-gateway/src/auth/auth.service.ts:773-805 | accepts exactly when the verdict is to accept, and otherwise has the effect and the error of the verdict |
| `RefreshTokens.AuthService.Refresh` | apps/api-gateway/src/auth/auth.service.ts:481-590 | validate, revoke by rotation, look the membership up, issue: the new table is that of the atomic call |
| `RefreshTokens.AuthService.Logout` | apps/api-gateway/src/auth/auth.service.ts:594-599 | one token, or all of the user |
| `RefreshTokens.AuthService.RevokeSession` | apps/api-gateway/src/auth/auth.service.ts:618-625 | only the owner's, and then unconditionally |
| `RefreshTokens.AuthService.RevokeAllOtherSessions` | apps/api-gateway/src/auth/auth.service.ts:627-637 | all other live tokens of the user |
| `RefreshTokens.AuthService.ChangePassword` | apps/api-gateway/src/auth/auth.service.ts:677-707 | the password time is set and then all tokens are revoked |
| `RefreshTokens.AuthService.SwitchInstitute` | apps/api-gateway/src/auth/auth.service.ts:422-458 | the current token is revoked before the membership is looked at; the new one begins a lineage |
| `PasswordFence.NothingOlderAccepted` | apps/api-gateway/src/auth/auth.service.ts:706-707 | with refreshes and password changes taken apart and interleaved: no validation that reads after the update accepts a token of an earlier millisecond |
| `PasswordFence.PassesFenceIff` | apps/api-gateway/src/auth/auth.service.ts:798-802 | right after the update an earlier live token passes the fence exactly when it was made in the same millisecond |
| `PasswordFence.SameMillisecondPasses` | apps/api-gateway/src/auth/auth.service.ts:798-802 | such a token: made half a millisecond before the change and accepted |
| `PasswordFence.LiveTokensAreNewer` | apps/api-gateway/src/auth/auth.service.ts:706-707 | once `revokeAllForUser` has run, every unrevoked token of the user was created at or after it |
| `PasswordFence.NothingOlderAfterRevocation` | apps/api-gateway/src/auth/repositories/user.repository.ts:8-13 | when both halves are done nothing older is accepted, to the microsecond |
| `PasswordFence.RevocationEndsSessionsIff` | apps/api-gateway/src/auth/auth.service.ts:706-707 | however things go on after the revocation, nothing is live again that descends from an earlier login, exactly when no refresh in flight at that moment holds a token of the user |
| `PasswordFence.RefreshInFlightSurvives` | apps/api-gateway/src/auth/auth.service.ts:481-497 | a refresh that had validated before the revocation mints a usable token after it, in the old session |
| `PasswordFence.AlwaysSound` | apps/api-gateway/src/auth/auth.service.ts:481-590 | in every interleaving every row is of its own signed token and an existing user, has a lineage that has begun, and refreshes hold rows of the table |
| `PasswordFence.StaysApartIff` | apps/api-gateway/src/auth/auth.service.ts:481-590 | over every interleaving of refreshes that revoke before they renew: each login is down to one live token or refresh in flight in every state exactly when no validation accepts a token that another refresh has validated and not renewed yet |
| `PasswordFence.RacingRefreshesIff` | apps/api-gateway/src/auth/auth.service.ts:490-576 | from any state, no such interleaving without further sharing gives a login two live tokens exactly when the refreshes in flight are apart: of different logins, and each login's live token is the one held |
| `PasswordFence.TwoRenewalsFork` | apps/api-gateway/src/auth/auth.service.ts:490-576 | two refreshes that hold tokens of one login, the same token say, leave it with two live ones when both go through |
| `LoginLockout.FailureLocksIff` | apps/api-gateway/src/auth/login-lockout.service.ts:90-93 | the counter reaches the threshold exactly when the chain of failures is as long as it may be |
| `LoginLockout.EntryOkIff` | apps/api-gateway/src/auth/login-lockout.service.ts:81-113 | which attempts may follow in a log, in plain terms: in order, none while a lock is on, and a failure locks exactly when the maxAttempts - 1 before it are failures, each less than a window before the next |
| `LoginLockout.RefinesAfter` | apps/api-gateway/src/auth/login-lockout.service.ts:86-130 | after any evaluated attempt the two keys say, for all time to come, what the attempt log says: chain length and lock |
| `LoginLockout.AttemptsBounded` | apps/api-gateway/src/auth/login-lockout.service.ts:92-113 | with lockout at least the window, any stretch of one window without a success has at most max(1, maxAttempts) evaluated failures |
| `LoginLockout.BoundHoldsIff` | apps/api-gateway/src/auth/login-lockout.service.ts:74-78 | that bound holds exactly when the lockout is at least as long as the window |
| `LoginLockout.ShortLockout` | apps/api-gateway/src/auth/login-lockout.service.ts:74-78 | the log that breaks the bound when the lockout is shorter |
| `LoginLockout.DefaultsBound` | apps/api-gateway/src/auth/login-lockout.service.ts:8-10 | by default, five attempts, 1800 s and 900 s: at most five failures in any fifteen minutes without a success |
| `LoginLockout.Service.constructor` | apps/api-gateway/src/auth/login-lockout.service.ts:69-79 | a service with no keys agrees with the empty log |
| `LoginLockout.Service.IsLocked` | apps/api-gateway/src/auth/login-lockout.service.ts:81-84 | locked exactly when some lock is younger than the lockout time |
| `LoginLockout.Service.IncrFailureCount` | apps/api-gateway/src/auth/login-lockout.service.ts:122-130 | INCR from what is live, and a fresh window |
| `LoginLockout.Service.RecordFailure` | apps/api-gateway/src/auth/login-lockout.service.ts:86-116 | locks exactly when the chain is as long as it may be, and otherwise tells how many more failures it takes |
| `LoginLockout.Service.ClearOnSuccess` | apps/api-gateway/src/auth/login-lockout.service.ts:118-120 | a success ends the chain and leaves locks alone |
| `LoginLockout.Service.VerifyCredentials` | apps/api-gateway/src/auth/auth.service.ts:809-869 | by the log: while locked nothing is evaluated, otherwise the attempt is evaluated and logged with its outcome |
| `KeysetPaging.PageAt` | apps/api-gateway/src/audit/repositories/audit-query.drizzle-repository.ts:163-189 | a page holds the newest rows below its cursor, has a next page exactly when it does not reach the end, and counts what lies below the cursor |
| `KeysetPaging.InGapIff` | apps/api-gateway/src/audit/repositories/audit-query.drizzle-repository.ts:175-178 | which rows a cursor loses by carrying whole milliseconds |
| `KeysetPaging.StartIff` | apps/api-gateway/src/audit/repositories/audit-query.drizzle-repository.ts:56-62 | a page after the cursor made of a row starts with the rows before its millisecond, and those of its very start with a lower id |
| `KeysetPaging.StartAfter` | apps/api-gateway/src/audit/repositories/audit-query.drizzle-repository.ts:56-62 | the next page starts right after this one, or after the rows its cursor loses; never before |
| `KeysetPaging.FollowFrom` | apps/api-gateway/src/audit/repositories/audit-query.drizzle-repository.ts:163-190 | following the cursors ends, yields rows in descending order, each at most once, and all of them exactly when no page end loses one |
| `KeysetPaging.PagingIsCompleteIff` | apps/api-gateway/src/audit/repositories/audit-query.drizzle-repository.ts:163-190 | every page size from one up yields the whole listing exactly when no two neighbouring rows have a gap |
| `KeysetPaging.WholeMillisComplete` | apps/api-gateway/src/audit/repositories/audit-query.drizzle-repository.ts:175-178 | rows with times in whole milliseconds are all seen, in order and once |
| `KeysetPaging.MicrosecondsLoseARow` | apps/api-gateway/src/audit/repositories/audit-query.drizzle-repository.ts:175-178 | two rows a microsecond apart that are not both seen |
| `KeysetPaging.SessionInOrder` | apps/api-gateway/src/audit/repositories/audit-query.drizzle-repository.ts:163-190 | whatever is inserted between pages, rows are seen in descending order and none twice |
| `KeysetPaging.SessionSeesIff` | apps/api-gateway/src/audit/repositories/audit-query.drizzle-repository.ts:163-190 | of the rows there from the start, a client that follows to the end sees exactly those that no cursor on its way loses |
| `KeysetPaging.SessionSeesEverything` | apps/api-gateway/src/audit/repositories/audit-query.drizzle-repository.ts:163-190 | without gaps in the tables it sees all of them |
| `KeysetPaging.LastIndexOf` | apps/api-gateway/src/audit/repositories/audit-query.drizzle-repository.ts:27-30 | the last colon, and none exactly when there is none |
| `KeysetPaging.DecodeIffEncoded` | apps/api-gateway/src/audit/repositories/audit-query.drizzle-repository.ts:25-37 | a cursor decodes to a time and an id exactly when it is the two joined by a colon, however many colons the time has, and the id is a UUID, character by character |
| `CanonicalJson.SameIffNormal` | apps/api-gateway/src/audit/audit.helpers.ts:158-173 | equal up to key order at every depth exactly when sorting the keys gives the same value |
| `CanonicalJson.SameFromFields` | apps/api-gateway/src/audit/audit.helpers.ts:146-155 | objects with the same keys and, under each, the same value are the same; SameFields is the other direction |
| `CanonicalJson.SameFromNth` | apps/api-gateway/src/audit/audit.helpers.ts:146-155 | arrays with the same value in every place are the same; SameNth is the other direction |
| `CanonicalJson.PrintInjective` | apps/api-gateway/src/audit/audit.helpers.ts:158-173 | printing loses nothing: equal texts come from equal values |
| `CanonicalJson.StableStringifyIff` | apps/api-gateway/src/audit/audit.helpers.ts:158-173 | two values have the same stable text exactly when they are equal up to key order |
| `CanonicalJson.EscapeInjective` | apps/api-gateway/src/audit/audit.helpers.ts:159 | escaped strings determine the string |
| `AuditDiff.ShallowEqualIff` | apps/api-gateway/src/audit/audit.helpers.ts:146-155 | `shallowEqual` is equality up to key order, with missing, undefined and null alike |
| `AuditDiff.ComputeDiff` | apps/api-gateway/src/audit/audit.helpers.ts:88-106 | exactly the differing fields with both values, and null exactly when there are none |
| `AuditDiff.DiffPatchesBothWays` | apps/api-gateway/src/audit/audit.helpers.ts:81-87 | new values over the record before give the record after, old values over the latter the former |
| `AuditDiff.DiffIsLeast` | apps/api-gateway/src/audit/audit.helpers.ts:81-87 | any set of changes that turns the one record into the other has at least these keys |
| `Calendar.MonthsTile` | apps/api-gateway/src/audit/workflows/partition.helpers.ts:13-25 | every instant lies in exactly one month, the one its fields name |
| `Calendar.MonthLengths` | apps/api-gateway/src/audit/workflows/partition.helpers.ts:13-25 | the lengths of the months |
| `Calendar.MonthStartsByLength` | apps/api-gateway/src/audit/workflows/partition.helpers.ts:13-25 | the month starts by themselves: January 1970 begins at 0, and each month as many days after the one before as that is long |
| `Calendar.SetUtcDateGoesBack` | apps/api-gateway/src/audit/workflows/partition.helpers.ts:47-48 | moving the day of the month back n goes back exactly n days, over any months and years |
| `Calendar.UtcFirstIsMonthStart` | apps/api-gateway/src/audit/workflows/partition.helpers.ts:14 | what Date.UTC gives for the first of a month, years 0 to 99 included |
| `Partitions.UtcFirstIff` | apps/api-gateway/src/audit/workflows/partition.helpers.ts:13-25 | Date.UTC names the month meant exactly when the year is not 0 to 99 |
| `Partitions.BoundsAreNextMonth` | apps/api-gateway/src/audit/workflows/partition.helpers.ts:13-25 | a new partition spans one whole month, and that is the month after the current one exactly when the year is not 0 to 99 |
| `Partitions.RangesMeetIff` | apps/api-gateway/src/audit/workflows/partition.activities.ts:38-56 | two created ranges meet exactly when they are for consecutive months |
| `Partitions.GetRetentionCutoff` | apps/api-gateway/src/audit/workflows/partition.helpers.ts:46-51 | the first of the month of the instant so many days ago |
| `Partitions.FirstOfMonthIff` | apps/api-gateway/src/audit/workflows/partition.helpers.ts:49-50 | the cutoff is the true first of the month, and not after the instant it is taken from, exactly when the year is not 0 to 99 |
| `Partitions.NameOfStart` | apps/api-gateway/src/audit/workflows/partition.helpers.ts:34-38 | the name of a month's partition |
| `Partitions.NameByChars` | apps/api-gateway/src/audit/workflows/partition.helpers.ts:34-38 | the name of a month in the years 1000 to 9999, character by character |
| `Partitions.ParseNameIff` | apps/api-gateway/src/audit/workflows/partition.helpers.ts:59-65 | parsing undoes naming exactly for the years 1000 to 9999 |
| `Partitions.ParsesIff` | apps/api-gateway/src/audit/workflows/partition.helpers.ts:59-65 | which names are taken for a month's, character by character |
| `Partitions.ParsedMonth` | apps/api-gateway/src/audit/workflows/partition.helpers.ts:59-65 | the month each is taken for; a month 0 or beyond 12 runs over into another year |
| `Partitions.Catalog.CreateNextMonthPartition` | apps/api-gateway/src/audit/workflows/partition.activities.ts:38-56 | for every clock: the partition of the target month is attached with its bounds and its name, unless a table of that name exists |
| `Partitions.Catalog.DetachPast` | apps/api-gateway/src/audit/workflows/partition.activities.ts:75-94 | one pass detaches exactly the monthly partitions that end by the cutoff |
| `Partitions.Catalog.EnforceRetention` | apps/api-gateway/src/audit/workflows/partition.activities.ts:62-96 | for every clock: detaches precisely the monthly partitions that end by the cutoff; outside the years 0 to 99 nothing inside the retention window |
| `Partitions.PassKeeps` | apps/api-gateway/src/audit/workflows/partition.activities.ts:62-96 | what a pass leaves attached: all but the monthly partitions that end by the start of the month of the instant so many days of 86400000 ms ago |
| `Partitions.Catalog.AuditPartitionManagement` | apps/api-gateway/src/audit/workflows/partition.workflow.ts:33-43 | the workflow reports the log healthy exactly when next month's table had not been detached before and the retention does not reach next month |
| `Partitions.AttachedIff` | apps/api-gateway/src/audit/workflows/partition.activities.ts:38-96 | over every run of creations and retention passes: a month's partition is attached exactly when it was created and no later pass reached it |
| `Partitions.CoveredIff` | apps/api-gateway/src/audit/workflows/partition.activities.ts:38-96 | no instant lies in two attached partitions, and one lies in exactly one under that condition on its month |
| `Partitions.MonthsAreCovered` | apps/api-gateway/src/audit/workflows/partition.workflow.ts:33-43 | if the creation ran at least once in each of consecutive months, every instant of the months after each, as far back as retention keeps, lies in exactly one attached partition |
| `Partitions.NameOfInjective` | apps/api-gateway/src/audit/workflows/partition.helpers.ts:34-38 | different months have different names, whatever the year |
| `Impersonation.ServeInv` | apps/api-gateway/src/auth/impersonation.service.ts:119-534 | every call keeps the invariant on sessions, OTPs, codes and history |
| `Impersonation.ExchangedOnce` | apps/api-gateway/src/auth/impersonation.service.ts:363-370 | in every run each code, and each session, is exchanged at most once |
| `Impersonation.UsedCodeRefused` | apps/api-gateway/src/auth/impersonation.service.ts:364-368 | a code that was handed in is refused ever after |
| `Impersonation.CodeOnlyAfterOtp` | apps/api-gateway/src/auth/impersonation.service.ts:290-359 | a session that needs an OTP has a code only right after the right OTP from its own impersonator, with at most two wrong ones before |
| `Impersonation.CodeNeedsItsOtp` | apps/api-gateway/src/auth/impersonation.service.ts:290-359 | over runs: the code of a gated session comes up only in an attempt by the person who started it, with the very number stored at the start; of any other session only at the start |
| `Impersonation.StartAnswers` | apps/api-gateway/src/auth/impersonation.service.ts:240-285 | which sessions are gated, and what a start stores: an hour for the session, five minutes for the OTP, thirty seconds for a code |
| `Impersonation.VerifyAnswers` | apps/api-gateway/src/auth/impersonation.service.ts:290-359 | for a session of the caller that is not ended and waits for an OTP, a code is given exactly when the number is the one stored, and the third wrong one ends the waiting; otherwise no code is added |
| `Impersonation.ExchangeAnswers` | apps/api-gateway/src/auth/impersonation.service.ts:363-455 | a token for fifteen minutes in whole seconds, exactly when the code is live and everyone involved still is; the code is gone either way |
| `Impersonation.EndAnswers` | apps/api-gateway/src/auth/impersonation.service.ts:470-506 | a session is ended exactly by its impersonator or its target, once, at the time of the call |
| `Impersonation.TokenWithinSession` | apps/api-gateway/src/auth/impersonation.service.ts:846-870 | every minted token expires no later than its session |
| `Impersonation.RewriteRenewsIff` | apps/api-gateway/src/auth/impersonation.service.ts:343-345 | a wrong attempt gives the OTP more than half a second more exactly when less than that was left: then another five minutes |
| `Impersonation.OtpCanOutliveFiveMinutes` | apps/api-gateway/src/auth/impersonation.service.ts:343-345 | a run in which an OTP lives almost ten minutes |
| `Impersonation.EndedSessionMintsIff` | apps/api-gateway/src/auth/impersonation.service.ts:290-438 | over every run that goes on from it: an ended session yields another token in some run exactly when a code for it is waiting already, because a waiting OTP leads to none any more |
| `Impersonation.ImpersonationService.StartImpersonation` | apps/api-gateway/src/auth/impersonation.service.ts:240-285 | a session is opened for an hour, with an OTP or with a code |
| `Impersonation.ImpersonationService.DispatchImpersonationOtp` | apps/api-gateway/src/auth/impersonation.service.ts:755-825 | nothing is stored unless the OTP can be delivered |
| `Impersonation.ImpersonationService.VerifyOtp` | apps/api-gateway/src/auth/impersonation.service.ts:290-359 | the checks in order, the attempt counted, the key rewritten or removed, the code issued: it does and answers what VerifyAnswers says |
| `Impersonation.ImpersonationService.IssueImpersonationCode` | apps/api-gateway/src/auth/impersonation.service.ts:742-751 | a code for 30 seconds |
| `Impersonation.ImpersonationService.ExchangeCode` | apps/api-gateway/src/auth/impersonation.service.ts:363-455 | the code is consumed before anything is looked up |
| `Impersonation.ImpersonationService.EndImpersonation` | apps/api-gateway/src/auth/impersonation.service.ts:470-506 | only by the impersonator or the target, and once |
| `ResellerLifecycle.ServeKeeps` | apps/api-gateway/src/admin/reseller/admin-reseller.service.ts:255-594 | every call keeps the invariant, loses no institute, and leaves system and deleted resellers as they are |
| `ResellerLifecycle.InstitutesConserved` | apps/api-gateway/src/admin/reseller/admin-reseller.service.ts:561-571 | over every run the institutes are the same ones and none is owned by a deleted reseller |
| `ResellerLifecycle.NeverChangedAgain` | apps/api-gateway/src/admin/reseller/admin-reseller.service.ts:264-272 | DELETED is absorbing and the system reseller immutable |
| `ResellerLifecycle.SuspendedIff` | apps/api-gateway/src/admin/reseller/admin-reseller.service.ts:401-410 | suspended exactly when inactive, dated and not deleted |
| `ResellerLifecycle.GracePeriodKept` | apps/api-gateway/src/admin/reseller/admin-reseller.service.ts:547-559 | every deletion in the history came at least 30 full days after the latest suspension, not lifted in between |
| `ResellerLifecycle.OthersUntouched` | apps/api-gateway/src/admin/reseller/admin-reseller.service.ts:255-594 | a call changes no other reseller, nor its institutes or members |
| `ResellerLifecycle.LatestMoveDecides` | apps/api-gateway/src/admin/institute/admin-institute.service.ts:145-174 | over whole runs an institute belongs to the reseller that the latest call to move it gave it to, a reassignment of it or the deletion of its then owner, and to its first owner if none did |
| `ResellerLifecycle.DeletedIff` | apps/api-gateway/src/admin/reseller/admin-reseller.service.ts:531-559 | exactly when a deletion goes through, thirty days in milliseconds, and the row it leaves |
| `ResellerLifecycle.ReassignedIff` | apps/api-gateway/src/admin/institute/admin-institute.service.ts:145-174 | exactly when a reassignment goes through: a known institute and an active reseller; only that institute moves |
| `ResellerLifecycle.SuspendedAnswers` | apps/api-gateway/src/admin/reseller/admin-reseller.service.ts:374-516 | exactly when a suspension and its lifting go through, with the new row |
| `ResellerLifecycle.EditedAnswers` | apps/api-gateway/src/admin/reseller/admin-reseller.service.ts:255-356 | exactly when an update and a change of tier go through, and the columns and roles they change |
| `ResellerLifecycle.Refusals` | apps/api-gateway/src/admin/reseller/admin-reseller.service.ts:255-594 | why a call is refused, and that nothing changes then |
| `ResellerLifecycle.DeletionMovesOwn` | apps/api-gateway/src/admin/reseller/admin-reseller.service.ts:567-574 | exactly the reseller's institutes go to the system reseller and exactly its memberships are removed |
| `ResellerLifecycle.RolesFollowTiersIff` | apps/api-gateway/src/admin/reseller/admin-reseller.service.ts:343-352 | members' roles follow their reseller's tier in every state of a run, and deleted resellers have no members, exactly as long as every tier change that finds members looks up that tier's role |
| `ResellerLifecycle.AdminResellerService.Update` | apps/api-gateway/src/admin/reseller/admin-reseller.service.ts:255-286 | the checks in order and the new row |
| `ResellerLifecycle.AdminResellerService.ChangeTier` | apps/api-gateway/src/admin/reseller/admin-reseller.service.ts:297-356 | the checks in order, the tier and the roles |
| `ResellerLifecycle.AdminResellerService.SuspendReseller` | apps/api-gateway/src/admin/reseller/admin-reseller.service.ts:374-410 | the checks in order and the new row |
| `ResellerLifecycle.AdminResellerService.UnsuspendReseller` | apps/api-gateway/src/admin/reseller/admin-reseller.service.ts:485-516 | the checks in order and the new row |
| `ResellerLifecycle.AdminResellerService.DeleteReseller` | apps/api-gateway/src/admin/reseller/admin-reseller.service.ts:526-585 | the checks in order, then institutes, memberships and the row |
| `ResellerLifecycle.AdminResellerService.ReassignReseller` | apps/api-gateway/src/admin/institute/admin-institute.service.ts:145-174 | only to a reseller that is live and active |
| `JsonLogic.ReadWriteIff` | libs/backend/groups/src/json-logic-to-ucast.ts:41-134 | every node written in its plainest form is read back, except membership in an empty list, which is refused |
| `JsonLogic.ComparisonKeys` | libs/backend/groups/src/json-logic-to-ucast.ts:65-81 | which condition each of the six comparison keys compiles to, and which comparison JsonLogic makes of it |
| `JsonLogic.NullKeys` | libs/backend/groups/src/json-logic-to-ucast.ts:74-78 | with null, != asks for a value, and each other comparison for the lack of one |
| `JsonLogic.InKey` | libs/backend/groups/src/json-logic-to-ucast.ts:84-99 | membership, compiled and evaluated |
| `JsonLogic.NotKeys` | libs/backend/groups/src/json-logic-to-ucast.ts:50-62 | negation and truth, compiled and evaluated |
| `JsonLogic.JunctionKeys` | libs/backend/groups/src/json-logic-to-ucast.ts:41-47 | and and or of two operands, compiled and evaluated |
| `JsonLogic.OperatorsRefused` | libs/backend/groups/src/json-logic-to-ucast.ts:116-134 | an object with no key, with two, or with one that is no operator, is refused |
| `JsonLogic.OperandsRefused` | libs/backend/groups/src/json-logic-to-ucast.ts:41-99 | operands that are no list or too few or too many are refused |
| `JsonLogic.ReferencesNeeded` | libs/backend/groups/src/json-logic-to-ucast.ts:56-99 | a left operand that is no reference, and a right one of membership that is no list or an empty one, are refused |
| `JsonLogic.MeaningPreserved` | libs/backend/groups/src/json-logic-to-ucast.ts:116-134 | for every plain rule, record and sane reading of the operators, the condition tree holds exactly when the rule is truthy |
| `JsonLogic.ComparisonPreservedIff` | libs/backend/groups/src/json-logic-to-ucast.ts:65-81 | a comparison that compiles keeps its meaning exactly when its reference has no field but `var` and the right operand is literal, and not null unless for equality |
| `JsonLogic.MembershipPreservedIff` | libs/backend/groups/src/json-logic-to-ucast.ts:84-99 | membership that compiles keeps its meaning exactly when its reference has no field but `var` and the list is literal |
| `JsonLogic.TruthAgreesIff` | libs/backend/groups/src/json-logic-to-ucast.ts:56-62 | `!!` keeps its meaning on a record, however values are compared, exactly when the dimension is a boolean or null there (for a reference with other fields: exactly when it is true) |
| `JsonLogic.EmptyAndNeverAgrees` | libs/backend/groups/src/json-logic-to-ucast.ts:41-47 | an empty `and` is falsy and its tree holds, always |
| `JsonLogic.NonLiteralShrinks` | libs/backend/groups/src/json-logic-to-ucast.ts:69-80 | an operand with an operator in it never evaluates to itself |
| `JsonLogic.SqlOfKnown` | libs/backend/groups/src/json-logic-to-ucast.ts:74-80 | where every compared dimension has a value, three-valued logic gives the two-valued verdict |
| `JsonLogic.SqlPreserved` | libs/backend/groups/src/json-logic-to-ucast.ts:116-134 | from JsonLogic to SQL: then exactly the records for which the rule is truthy are selected |
| `JsonLogic.SqlCompareIff` | libs/backend/groups/src/json-logic-to-ucast.ts:74-80 | a comparison is two-valued in SQL exactly when its dimension is not null |
| `JsonLogic.NegationOfNullSelectsNothing` | libs/backend/groups/src/json-logic-to-ucast.ts:50-53 | a negated equality on a null dimension is truthy in JsonLogic and unknown in SQL |
| `Dimensions.Walker.Walk` | libs/backend/groups/src/extract-dimensions.ts:27-49 | the walk adds exactly the variables mentioned |
| `Dimensions.ExtractDimensions` | libs/backend/groups/src/extract-dimensions.ts:24-53 | the variables a rule mentions |
| `Dimensions.DimsIff` | libs/backend/groups/src/extract-dimensions.ts:24-53 | the dimensions are exactly the names of the references that a path of array items and object values leads to without passing through a reference |
| `Dimensions.FieldsAreDims` | libs/backend/groups/src/json-logic-to-ucast.ts:41-134 | all fields of the compiled condition are among the rule's dimensions |
| `Dimensions.DimensionsFrame` | libs/backend/groups/src/extract-dimensions.ts:1-9 | two records that agree on a rule's dimensions get the same verdict |
| `Dimensions.DimsAreFields` | libs/backend/groups/src/extract-dimensions.ts:24-53 | the dimensions are exactly the condition's fields when nothing the compiler skips or takes as a value mentions a variable |

## Left out

- SessionGuard.EndImpersonation: nothing acts between its SELECT and its UPDATE.
- SessionGuard.CanActivate: finding the impersonation claims in the request is not modelled; a guard of an ordinary request is not a guard run.
- AuditConsumer.Consumer.OnMessage: the correlation id, tenant and subject that a dead letter carries are not modelled, nor metrics; closing the consumer is a restart.
- AuditInsert.BatchInsert: JSON columns are texts already, and the text of the query is its rows of placeholder numbers.
- SqlSplitter.SplitSqlStatements: nested block comments, double-quoted identifiers and escape strings are read as the code reads them, not as PostgreSQL does.
- RefreshTokens.AuthService.Refresh: whether the membership, reseller or role lookups succeed is a parameter, and the claims of the new access token are not modelled; `lineage` and `logins` are history, not columns.
- RefreshTokens.ServeLater: a service call is one step here; PasswordFence takes refreshes and password changes apart.
- AuditPipeline.ExecInv: that `ack`, `nak` or `term` itself throws is not modelled; a dying process may stop between two acknowledgements.
- LoginLockout.Service.VerifyCredentials: a service call is one step, and both times to live are positive, as Redis demands.
- KeysetPaging.FollowFrom: the filter conditions and joins are abstracted to the rows that pass them, listed in the query's order; page size zero or below is not followed.
- KeysetPaging.DecodeIffEncoded: base64url is taken as the identity, and which texts Date.parse takes is a parameter.
- AuditDiff.ComputeDiff: prototype keys, and values that JSON cannot carry (NaN, bigint, Date, undefined inside objects), are not modelled; the order of the diff's keys is not.
- CanonicalJson.StableStringifyIff: numbers are the texts JavaScript prints for them; strings are sequences of characters without lone surrogates.
- Partitions.Catalog.EnforceRetention: the order in which partitions are listed is not modelled, and retention lengths are not negative.
- Partitions.Catalog.CreateNextMonthPartition: the database's refusal of overlapping ranges is not modelled; a partition whose name is not a month's has no bounds that matter.
- Impersonation.ImpersonationService.StartImpersonation: the reason's length and the checks on users, memberships, institutes and abilities are one parameter; a session always has a target institute.
- Impersonation.EndedSessionMintsIff: a call is one step, so a `verifyOtp` that has read the session before its end and issues a code after it is not among the runs.
- ResellerLifecycle.ServeKeeps: a call is one step, although `reassignReseller` finds the institute, checks the reseller and updates in separate statements; creating resellers and institutes is left out; the cascades of a suspension on tokens and sessions are in RefreshTokens and SessionGuard.
- JsonLogic.MeaningPreserved: dimension names are plain names (no dots, not empty); what `==`, `<` and `in` make of values is a parameter; errors raised while a JsonLogic rule is evaluated are not modelled; prototype names such as `toString` count as unsupported operators.
- Generating SQL text from conditions belongs to a library whose code is not here: the model stops at the condition tree and its three-valued meaning.
- Signing, hashing, encryption and OTP randomness are fresh or injective values; nothing is claimed about their strength.
- Auth events, notifications, logging and GraphQL resolvers are side effects or wiring.
- The academic-year, dead-letter and institute status machines: their transition tables are not part of this model.
- `snapshotForDelete`, `maskChanges`, `extractEntityType`, `slugify` and list filters would only add easy members.
