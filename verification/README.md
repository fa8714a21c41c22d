# registry-gate: a verified model

registry-gate is a token gate in front of a container registry. Users obtain
personal access tokens from a portal; the gate checks tokens and an anonymous
pull whitelist, limits failed logins, and forwards what it allows. This Dafny
project models that logic and proves what the program is for. `dafny verify
dfyconfig.toml` checks it all.

The model follows the program's own form. Objects whose methods update fields
(`Limiter`, `List`, `SQLite`, `Server`, `Handler`, `SecretTable`) are classes; each
method is proved to do what a function of the old state says, and the theorems are
lemmas about those functions over all inputs, all runs or all interleavings.
Instants and durations are integers (nanoseconds), every clock reading is an input,
and database failures are inputs too.

| module | models |
|---|---|
| `RateLimit`, `RateLimitRuns` | the sliding-window limiter, alone and over runs |
| `ClientIP` | which address a request is counted under |
| `Whitelist`, `WhitelistMatch` | parsing, matching and reloading the whitelist |
| `Store` | the token table and runs of its statements |
| `Portal`, `PortalOutcomes`, `PortalRuns`, `PortalExpiry`, `PortalConcurrency` | issuing, rotating and revoking tokens: one handler, runs of handlers, how long tokens live, interleaved handlers |
| `Secrets` | get-or-create of secrets by any number of callers |
| `Base64`, `Pat`, `Session` | token framing and signed cookies |
| `Gate`, `GateHandler`, `GateDecisions`, `GateRuns`, `GateClients`, `GateConcurrency` | the decision flow: its functions, the handler object, the decision tables, runs of requests, what clients send, interleaved failures |
| `Text`, `Numbers`, `Bytes`, `Time`, `Wrappers` | the string functions relied on, with laws that determine them, and shared types |

## Main results

- **Limiter.** With readings of the clock that may be late by up to a skew, admitted
  events of one key that are `count` apart in order are `window - skew` apart in time
  (`AdmittedAreSpaced`, `WindowBound`), and that bound is attained for every count,
  window and skew (`SkewBoundIsTight`).
  With a nondecreasing clock the limiter answers exactly like one that keeps all
  events for ever (`AgreesWithNaive`).
- **Whitelist.** The compiled index admits what some source line matches, by the exact line if there
  is one, else by the first wildcard line (`MatchAgreesWithSources`); after any reloads these
  are the lines of the last sources that parsed (`LastGoodReadIsInForce`, `HeldMatches`).
- **Tokens.** The per-user cap holds in every state reachable by handlers run one by one
  (`CapHolds`); with `k` handlers in flight the overshoot is at most `k - 1`, and that is
  attained (`OvershootIsBounded`, `OvershootIsAttained`). A token is accepted iff it was
  created, not revoked since, and its stored expiry lies ahead (`AcceptedIffLive`,
  `GateAfterPortal`); it works until the expiry that the portal reports iff that fits 64-bit
  nanoseconds (`IssuedTokenWorks`, `RotatedTokenWorks`). Rotations in time, however mixed
  with other handlers, move the expiry only by the whole seconds they take
  (`ChainKeepsExpiry`).
- **Secrets.** Any number of callers in any interleaving agree on one value that never
  changes (`CallersAgree`), and it is the bytes that one of them drew (`RowsAreDrawn`).
- **Codecs.** Encodings are undone for all inputs; a cookie carries a session iff it is
  authentic and alive (`GetIff`), and a session is never extended
  (`SessionIsNeverExtended`).
- **Gate.** Every GET is decided, recorded and answered by two decision tables, with one exact
  exception (`ServeMeetsTable`); counters, log and upstream stay in step over every run
  (`BooksBalance`, `CountersAddUp`); each record is what the tables say about its request
  (`RecordsFollowTables`); the two failure limiters bound the 401 answers, also for
  interleaved requests and whatever clients put into their headers (`FailuresAreBounded`,
  `FailureAnswerIsNaive`, `ConcurrentFailuresAreBounded`, `SpoofingGainsNothing`).

## Where comments or documents and code differ

The model follows the code, and states what holds instead.

- `firstUnknownProject` (internal/gate/gate.go:230-243) uses "" for "none". A repository name
  that starts with '/' has project "" and is reported as known: `KnownIffMirroredOrSlash` says
  exactly when, `AuthedMeetsTable` the effect, `SlashExample` gives an instance.
- The design document's decision flow leaves two anonymous cases open, and the tables follow the
  code: a request without scopes is denied as not whitelisted (internal/gate/gate.go:308-313),
  and a project that is not mirrored is answered 404 (317-322), as config.example.yaml:54
  says.
- `rotate` (internal/portal/handlers.go:369-371) promises the default validity for any inactive
  token; the code uses it only when the remaining time is not positive or above the
  maximum (382-385): `RotateDepartsFromPromise`, `RotateRevokedExample`.
- `parseTTLDays` (internal/portal/handlers.go:292-293) promises a cap of about 100 years regardless of
  configuration; it applies only to numbers of days, and only without a maximum: `CenturyCapHolds`,
  `CenturyCapFails`, `CenturyCapFailsForDefault`.
- Base64url alone does not tell a prefixed token from an unprefixed one: the characters of
  `zjum_` belong to the alphabet. `UnprefixedUnwraps` says for which texts the
  unprefixed form is misread; no JWT is among them (`JwtUnwraps`).
- The portal reports an expiry that the token table may not be able to hold: `UnixNano`
  (internal/store/sqlite.go:113) wraps around after April 2262, and validation
  (internal/config/validate.go:133-138) allows a maximum that reaches so far. Such a token is reported
  as issued and rejected from the start: `IssuedTokenWorks`, `RotatedTokenWorks`, and
  `IssuedTokenIsDead` for an instance.
- Revoking by id overwrites an earlier revocation time, revoking by subject keeps it
  (internal/store/sqlite.go:198-214): `RevocationTimes`.

## Model

| member | source | states |
|---|---|---|
| Text.TrimSpaceOf | internal/whitelist/whitelist.go:291 | trimming takes white space away on both sides, all of it, and nothing else |
| Text.FieldsSkips | internal/gate/gate.go:146 | white space in front of a parameter is skipped |
| Text.FieldsTakes | internal/gate/gate.go:146 | the next word of a parameter goes up to white space or the end |
| Text.ByteLenOfChar | internal/portal/handlers.go:315 | the note is measured in bytes of UTF-8 (section 3 of RFC 3629) |
| Numbers.AtoiIff | internal/portal/handlers.go:288 | the validity field is read exactly if it writes a 64-bit number: an optional sign, zeros, and its decimal digits |
| RateLimit.PrunedIsSuffix | internal/httpx/ratelimit.go:97-104 | pruning drops exactly the leading stamps not after the cutoff and stops at the first later one |
| RateLimit.Limiter.constructor | internal/httpx/ratelimit.go:60-66 | a new limiter has no events and its last sweep is now |
| RateLimit.Limiter.Prune | internal/httpx/ratelimit.go:97-104 | the loop computes the pruned log |
| RateLimit.Limiter.Sweep | internal/httpx/ratelimit.go:84-93 | the loop over the map, in any order of keys, prunes every log and removes exactly the keys whose log became empty |
| RateLimit.Limiter.Allow | internal/httpx/ratelimit.go:70-95 | the whole new state and the answer of one call; the laws of that function are the lemmas below |
| RateLimit.AdmittedIff | internal/httpx/ratelimit.go:77-81 | a call is admitted iff fewer than count stamps are left of the log of its key without its expired head |
| RateLimit.RefusedCall | internal/httpx/ratelimit.go:77-81 | a refused call prunes the log of its key and changes nothing else |
| RateLimit.AdmittedCall | internal/httpx/ratelimit.go:82-94 | an admitted call is added to that log, and nothing else changes unless the last sweep is more than a window ago |
| RateLimit.SweepingCall | internal/httpx/ratelimit.go:84-93 | if it is, every log loses its expired head, and exactly the empty ones are removed |
| RateLimitRuns.LogForgetsOnlyExpired | internal/httpx/ratelimit.go:70-104 | in every run the log of a key is its admitted history less a prefix of stamps that some clock reading put outside the window, whatever the sweeps of other keys did |
| RateLimitRuns.AdmittedAreSpaced | internal/httpx/ratelimit.go:70-95 | with stamps late by at most skew, an admitted event and the count-th admitted one before it are at least window - skew apart |
| RateLimitRuns.WindowBound | internal/httpx/ratelimit.go:68-95 | no half-open interval of length window - skew holds more than count admitted events of one key |
| RateLimitRuns.SkewBoundIsTight | internal/httpx/ratelimit.go:70-95 | for every count, window and skew a run attains that bound: count + 1 admitted events that span window - skew, the last of which the naive limiter refuses; a sweep by another key forgets stamps a late call still has in its window |
| RateLimitRuns.AgreesWithNaive | internal/httpx/ratelimit.go:68-104 | with a nondecreasing clock every answer, and every admitted history, is that of a limiter that keeps all events and counts those in the window |
| RateLimitRuns.SweepKeepsLiveKeys | internal/httpx/ratelimit.go:82-93 | after a sweep every key that is left has a nonempty log that starts inside the window |
| RateLimitRuns.LogsAreBounded | internal/httpx/ratelimit.go:70-95 | no log ever holds more than count stamps, whatever the clock does |
| ClientIP.Proxies.IsTrusted | internal/httpx/ip.go:34-44 | true exactly when some trusted network contains the address |
| ClientIP.Proxies.Client | internal/httpx/ip.go:54-79 | the peer unless it is trusted; else the rightmost untrusted hop, the leftmost hop if all are trusted, or the peer if there is none |
| ClientIP.Proxies.ClientIsDetermined | internal/httpx/ip.go:54-79 | there is only one such answer |
| ClientIP.Proxies.ClientOfHops | internal/httpx/ip.go:70-78 | behind a trusted peer: the last hop that is not trusted, the first if all are, the peer if there is none |
| ClientIP.Proxies.HeaderEntry | internal/httpx/ip.go:62-69 | an entry of a header, without the white space around it, is a hop iff it is an address |
| ClientIP.Proxies.PeerTrustedIff | internal/httpx/ip.go:55-59 | the headers count iff the peer has an address in some trusted network |
| ClientIP.Proxies.LeftEntriesDoNotMatter | internal/httpx/ip.go:46-79 | entries put to the left in the first header that holds an address left by an untrusted hop, behind any further headers, never change the answer |
| ClientIP.Proxies.LeftHeadersDoNotMatter | internal/httpx/ip.go:46-79 | further headers in front of headers with such an address never change the answer |
| ClientIP.Proxies.SpoofingChangesNothing | internal/httpx/ip.go:46-79 | whatever a client adds to its headers, in either way or behind an untrusted peer, the answer is the same |
| Whitelist.WildcardFollowsSlash | internal/whitelist/whitelist.go:267-278 | the two "'/' expected" checks always succeed |
| Whitelist.RecursiveMeaning | internal/whitelist/whitelist.go:8 | `p/**` matches exactly the names that start with `p/` |
| Whitelist.SegmentMeaning | internal/whitelist/whitelist.go:9 | `p/*` matches exactly those of them without a further slash |
| Whitelist.ExactMeaning | internal/whitelist/whitelist.go:10 | any other line matches exactly itself |
| Whitelist.KeptInOrder | internal/whitelist/whitelist.go:255-258 | lines are trimmed, blank ones and comments dropped, and the others keep their order |
| Whitelist.SourcesInOrder | internal/whitelist/whitelist.go:285-300 | the lines of the files come in order, and before the inline ones |
| Whitelist.FileIsLines | internal/whitelist/whitelist.go:290 | the lines of a file are separated by newlines |
| Whitelist.SourceLinesIff | internal/whitelist/whitelist.go:255-300 | the lines that count are exactly those given, trimmed, that are neither blank nor comments |
| Whitelist.ParsesIff | internal/whitelist/whitelist.go:259-261 | sources parse iff every file can be read and no line that counts holds a colon |
| Whitelist.Enter | internal/whitelist/whitelist.go:266-282 | a new line goes to exactly one of the exact map and the rules, and is appended to the lines; never an error |
| Whitelist.Add | internal/whitelist/whitelist.go:255-284 | the only error is a kept line with a ':'; blank lines, comments and repetitions leave the table as it is |
| Whitelist.AddAll | internal/whitelist/whitelist.go:290-300 | one source: the table of the lines so far plus its kept lines, or the first line with a ':' and its number |
| Whitelist.AddFile | internal/whitelist/whitelist.go:285-295 | one file: its kept lines are added, or the error is its own |
| Whitelist.AddFiles | internal/whitelist/whitelist.go:285-295 | all files in order, or the error of the first faulty one |
| Whitelist.ParseAll | internal/whitelist/whitelist.go:252-302 | on success all sources are readable and free of ':' and the table is the compilation of the first occurrences of the kept lines; on failure the error names the first fault |
| Whitelist.ErrorsAreErrors | internal/whitelist/whitelist.go:255-300 | an error is reported only for sources that do not parse, so that with readable files parsing fails iff some kept line holds a ':' |
| WhitelistMatch.LookupAgreesWithLines | internal/whitelist/whitelist.go:114-132 | over the table of any lines the index finds a name iff it is nonempty and a line matches it, and returns the exact line if there is one, else the first wildcard line |
| WhitelistMatch.MatchAgreesWithSources | internal/whitelist/whitelist.go:4-15 | a name is admitted iff it is nonempty and some kept source line matches it as exact, `/*` or `/**` line; the line returned is nonempty: the exact line if there is one, else the first wildcard line of the sources |
| WhitelistMatch.VerdictGrowsWithLines | internal/whitelist/whitelist.go:250-302 | the verdict depends on the set of kept lines alone, not on order, repetition or source, and only grows with more lines |
| WhitelistMatch.TablePartitionsLines | internal/whitelist/whitelist.go:266-282 | every distinct kept line is in exactly one of exact map and rules, and the size is their number |
| WhitelistMatch.List.New | internal/whitelist/whitelist.go:87-111 | there is a list iff the sources parse, and it starts from these contents |
| WhitelistMatch.List.Match | internal/whitelist/whitelist.go:114-132 | after any reloads: a name is admitted iff it is nonempty and a line of the last sources that parsed matches it, and the line returned is the exact one if there is one, else the first wildcard line |
| WhitelistMatch.List.Size | internal/whitelist/whitelist.go:135-139 | after any reloads: the number of distinct kept lines in the last sources that parsed |
| WhitelistMatch.List.ReloadErrors | internal/whitelist/whitelist.go:142 | the number of reads so far whose sources did not parse |
| WhitelistMatch.List.Reload | internal/whitelist/whitelist.go:147-159 | appends one read to the history; replaces the table iff its sources parse, else keeps it and counts one error |
| WhitelistMatch.LastGoodReadIsInForce | internal/whitelist/whitelist.go:144-159 | over any sequence of file contents read there is one last read that parsed, the table is its compilation, and the counter is the number of reads that did not parse |
| WhitelistMatch.HeldMatches | internal/whitelist/whitelist.go:113-159 | so after any reloads the index answers by the lines of the last sources that parsed |
| Store.CountAgreesWithActive | internal/store/sqlite.go:190-195 | the rows that the SQL condition selects are exactly the subject's tokens for which Active holds |
| Store.ActiveIffAccepted | internal/store/store.go:26-29 | the tokens the cap counts are exactly those of the subject that the gate accepts: not revoked, and the stored expiry ahead |
| Store.SQLite.CreateToken | internal/store/sqlite.go:125-133 | inserts the row with its times as 64-bit nanoseconds; an empty or existing id is an error and changes nothing |
| Store.RowKeepsWhatFits | internal/store/sqlite.go:113-133 | a row stores every field as it is, times as far as they fit 64 bits |
| Store.WrapIsCongruent | internal/store/sqlite.go:113 | times that do not fit wrap around |
| Store.SQLite.GetToken | internal/store/sqlite.go:136-146 | the row, or not found |
| Store.SQLite.CountActiveBySubject | internal/store/sqlite.go:190-195 | the number of the subject's active tokens |
| Store.SQLite.RevokeToken | internal/store/sqlite.go:198-204 | sets the revocation time of one row, even if it has one; not found otherwise |
| Store.SQLite.RevokeAllBySubject | internal/store/sqlite.go:208-214 | sets it on the subject's rows that have none, and returns how many |
| Store.SQLite.MarkUsed | internal/store/sqlite.go:217-223 | sets the last use of one row; not found otherwise |
| Store.RowAfter | internal/store/sqlite.go:197-223 | what one statement does to each row: which revocation time and last use it sets, and that nothing else changes |
| Store.RowAdded | internal/store/sqlite.go:125-133 | a row appears only by a creation with its nonempty id |
| Store.LastUseIsShown | internal/store/sqlite.go:216-223 | the last use shown is the time of the last mark, through any statements that are no mark of that token |
| Store.RowsAreTraced | internal/store/sqlite.go:124-223 | in every run of statements a row exists iff it was created; it keeps subject and expiry of its first creation and tells whether a revocation followed |
| Store.AcceptedIffLive | internal/gate/gate.go:206-221 | after any run the gate accepts an id iff it was created, not revoked since by id or by subject, and the stored expiry (64-bit nanoseconds) lies ahead |
| Store.RejectionIsFinal | internal/gate/gate.go:213-219 | a token once rejected is rejected ever after at the same or later instants, whatever follows |
| Store.KeepsRejecting | internal/store/sqlite.go:198-223 | no statement deletes a row, changes its subject or expiry, or undoes a revocation |
| Store.RevocationTimes | internal/store/sqlite.go:198-214 | revoking by id overwrites an earlier revocation time, revoking by subject keeps it |
| Portal.DefaultTTL | internal/portal/portal.go:177-186 | always positive, and within a maximum that is at least the configured default |
| Portal.AcceptedValidity | internal/portal/handlers.go:282-302 | a form is accepted iff blank or a whole number of days, at least one and within the maximum (36500 without one); the duration is exact and positive |
| Portal.RefusalsAreExplained | internal/portal/handlers.go:288-300 | a form is refused with the reason that applies, and with the maximum in whole days |
| Portal.DaysFit | internal/portal/handlers.go:292-301 | no accepted number of days overflows 64 bits when converted |
| Portal.CenturyCapHolds | internal/portal/handlers.go:292-300 | the 100-year cap holds for all accepted forms, blank ones included, iff neither the days that may be asked for nor the default exceed it |
| Portal.CenturyCapFails | internal/portal/handlers.go:292-300 | a validated configuration that accepts the form "36501" for 36501 days |
| Portal.CenturyCapFailsForDefault | internal/portal/handlers.go:285-287 | a validated configuration under which a blank form alone exceeds the cap |
| Portal.Server.NewToken | internal/portal/portal.go:189-205 | the new row and its metadata, or nothing changed |
| Portal.Server.Issue | internal/portal/handlers.go:305-353 | table and reply, branch by branch; `IssueSucceedsIff` characterises them |
| Portal.Server.Own | internal/portal/handlers.go:357-367 | the row if it is the subject's own, nothing otherwise |
| Portal.Server.Rotate | internal/portal/handlers.go:372-422 | table and reply, branch by branch; `RotateSucceedsIff` characterises them |
| Portal.Server.Revoke | internal/portal/handlers.go:425-441 | table and reply of the handler; `RevokeSucceedsIff` characterises them |
| PortalOutcomes.InsertAdds | internal/token/token.go:43-79 | a new token is one new row, unrevoked, with the id drawn and both times cut to whole seconds, which the table stores in 64 bits; all other rows stay |
| PortalOutcomes.IssueSucceedsIff | internal/portal/handlers.go:304-353 | issuing succeeds iff session, note length, validity, cap and database all allow it, adds exactly that row, and otherwise changes nothing |
| PortalOutcomes.IssueReplies | internal/portal/handlers.go:305-346 | which of its answers `issue` gives when |
| PortalOutcomes.RotateSucceedsIff | internal/portal/handlers.go:369-422 | exactly when a rotation revokes the old token, when it also issues the new one, and what the table is in each case |
| PortalOutcomes.RotateReplies | internal/portal/handlers.go:372-414 | which of its answers `rotate` gives when |
| PortalOutcomes.RevokeSucceedsIff | internal/portal/handlers.go:424-441 | revoking succeeds iff the token is the user's own and the database works, whatever the state of the token; it sets the revocation time and nothing else; otherwise nothing changes and the answer says why |
| PortalRuns.IssueGrowth | internal/portal/handlers.go:324-345 | an issue that leaves any subject with more active tokens is that subject's and leaves at most the maximum |
| PortalRuns.RotateGrowth | internal/portal/handlers.go:386-413 | the same for rotations of active tokens (which free their slot first) and of inactive ones (which are counted) |
| PortalRuns.StepGrowth | internal/admin/handlers.go:364-402 | the same for every handler, the administrators' included |
| PortalRuns.CapHolds | internal/portal/handlers.go:305-441 | in every run of handlers, one after the other and with any failing statements, no subject ever has more active tokens than the maximum |
| PortalRuns.StepIsOps | internal/portal/handlers.go:305-441 | the effect of each handler is that of the statements it runs |
| PortalRuns.RunIsOps | internal/portal/handlers.go:305-441 | every run of handlers is a run of statements |
| PortalRuns.GateAfterPortal | internal/gate/gate.go:206-221 | after any run of handlers the gate accepts exactly the tokens whose statements created them, did not revoke them since, and whose stored expiry lies ahead |
| PortalRuns.RevokedForever | internal/portal/handlers.go:402-407 | a revoked token stays revoked through any further handlers |
| PortalRuns.WithdrawnTokenIsDead | internal/portal/handlers.go:434 | a token that its owner has revoked is never accepted again, whatever handlers follow |
| PortalRuns.AdminRevocationIsFinal | internal/admin/handlers.go:364-402 | nor is one that an administrator has revoked, by id or with all tokens of its subject |
| PortalRuns.MarkShowsUse | internal/store/sqlite.go:216-223 | a mark of use sets the last use of its token and nothing else |
| PortalRuns.SparedIsKept | internal/store/sqlite.go:198-223 | a token keeps expiry, subject and revocation state through any handlers that do not revoke it |
| PortalRuns.RotatedTokenIsDead | internal/portal/handlers.go:369-421 | after a rotation has answered with a new token the old one is never accepted again, whatever handlers follow; the new one is accepted exactly until its stored expiry through any handlers that do not revoke it |
| PortalRuns.ForeignLooksMissing | internal/portal/handlers.go:355-367 | rotating or revoking another user's token has no effect and the same answer as for a missing one |
| PortalRuns.RunIsKeyed | internal/store/sqlite.go:125-133 | every reachable row is stored under its own id, which `Rotate` and `Revoke` rely on |
| PortalExpiry.ValidityIsBounded | internal/config/validate.go:133-138 | with a validated configuration no token is reported with more than the maximum validity |
| PortalExpiry.IssuedTokenWorks | internal/store/sqlite.go:113-133 | a token reported as issued is accepted exactly until the expiry reported, through any handlers that do not revoke it, iff that expiry fits 64-bit nanoseconds; if not, it is rejected from the start |
| PortalExpiry.RotatedTokenWorks | internal/store/sqlite.go:113-133 | the same for the token that a rotation reports |
| PortalExpiry.IssuedTokenIsDead | internal/store/sqlite.go:113-133 | a validated configuration (100000 days) under which a token issued in 2027 is reported with an expiry ahead and never accepted |
| PortalExpiry.ReachableIsPlausible | internal/portal/handlers.go:381-385 | with a validated configuration every stored expiry of a reachable table is in whole seconds and at most the maximum away, or did not fit and is past |
| PortalExpiry.RotationKeepsExpiry | internal/portal/handlers.go:381-408 | a rotation within the maximum moves the expiry by the whole seconds between its two clock readings; it is the same instant iff that is under a second |
| PortalExpiry.ChainKeepsExpiry | internal/portal/handlers.go:381-408 | with a validated configuration, follow any token of a reachable table through any further run of handlers by anyone: as long as each rotation of it, or of what replaced it, comes before the expiry, the expiry moves by the whole seconds those rotations took and by nothing else |
| PortalExpiry.FastChainsDoNotDrift | internal/portal/handlers.go:381-408 | with rotations that read their clocks within a second it never moves |
| PortalExpiry.RotateDepartsFromPromise | internal/portal/handlers.go:369-385 | the inputs for which the new validity differs from the comment's promise, exactly |
| PortalExpiry.RotateRevokedExample | internal/portal/handlers.go:369-385 | a token issued for ten days and revoked after an hour, then rotated: the new one expires with the old one, while the comment promises the default of thirty days |
| PortalConcurrency.StepsMakeIssue | internal/portal/handlers.go:324-345 | begin, count and insert run without interleaving, whenever each runs, are the whole issue handler at the clock reading of the first |
| PortalConcurrency.OvershootIsBounded | internal/portal/handlers.go:326-345 | in every interleaving, however long before its count a handler read the clock, with at most k issue or rotate handlers of a subject under way, its active tokens plus pending insertions never exceed the maximum + k - 1; handlers run as a whole (rotations among them) read the clock when they run |
| PortalConcurrency.OvershootIsAttained | internal/portal/handlers.go:326-345 | for every maximum and every k a run attains that bound |
| Secrets.AdvanceIsSound | internal/store/signkey.go:28-69 | one statement of one caller never changes a row; a caller that has returned has returned the row, a key that parses; a failure has its cause: a row that does not parse or a failing statement |
| Secrets.RunIsSound | internal/store/signkey.go:28-69 | this holds in every state of every interleaving |
| Secrets.RowsPersist | internal/store/signkey.go:59-63 | a row keeps its value whatever happens later |
| Secrets.InsertsAreDrawn | internal/store/sqlite.go:97-102 | in every interleaving the bytes a caller is about to insert are those drawn at its last read |
| Secrets.RowsAreDrawn | internal/store/sqlite.go:97-102 | in every interleaving a new row holds the bytes that some caller of that name drew at its last read, which found nothing, before it inserted them |
| Secrets.CallersAgree | internal/store/signkey.go:28-69 | any two callers of one name that return, at whatever times, return the same bytes, which stay in the table |
| Secrets.NobodyIsExhausted | internal/store/signkey.go:68 | the error after two rounds never occurs for the key, and for a secret only in a run in which a statement failed |
| Secrets.CallersAdvance | internal/store/signkey.go:29-67 | every statement brings its caller closer to an answer, whatever the others do |
| Secrets.InsertDecides | internal/store/sqlite.go:97-105 | an insert that succeeds returns its own bytes and they are what everyone else returns; one that loses reads the winner's row next |
| Secrets.PlayIsSound | internal/store/sqlite.go:90-111 | one caller among others keeps all rows and answers with the row there is, however its statements fare |
| Secrets.PlaySucceeds | internal/store/signkey.go:28-69 | without failing statements there is a row at the end, and it is the answer, unless it is a key that does not parse |
| Secrets.FreshSecret | internal/store/sqlite.go:97-104 | on first use a secret is the bytes drawn, in the table and in the answer |
| Secrets.FreshKey | internal/store/signkey.go:39-63 | on first use the key in the table is the bytes drawn, and the answer if they parse |
| Secrets.TwoRoundsOnly | internal/store/sqlite.go:110 | two failing inserts are the end |
| Secrets.FailuresHaveCauses | internal/store/signkey.go:59-65 | each failure reported is one of a statement of that kind |
| Secrets.FaultsAreReported | internal/store/signkey.go:59-65 | a failing read is reported at once, and so is a failing insert of the key |
| Secrets.PlayFacts | internal/store/sqlite.go:90-111 | all this together, which both methods promise |
| Secrets.SecretTable.GetOrCreateSecret | internal/store/sqlite.go:90-111 | the loop with others interleaved: the answer is the row or names a failing statement; without failures it is the row; on first use it is the bytes drawn |
| Secrets.SecretTable.GetOrCreateSignKey | internal/store/signkey.go:28-69 | the same for the key, which must parse: corrupt is answered only for a row that does not, without failures exactly then, and the loop never runs out of rounds |
| Base64.DecodeEncode | internal/token/token.go:78-106 | decoding undoes encoding for all byte strings (section 5 of RFC 4648, unpadded) |
| Base64.EncodeInAlphabet | internal/token/token.go:99-100 | an encoding holds only characters of the alphabet, so no '.' |
| Base64.EncodeLength | internal/token/token.go:78 | n bytes encode to the rounded-up 4n/3 characters, without padding |
| Base64.DecodeLength | internal/token/token.go:101-105 | a decoding is at most three quarters as long as its text |
| Base64.Alphabet | internal/token/token.go:78 | the URL-safe alphabet in order |
| Base64.GroupIsBigEndian | internal/token/token.go:78 | three bytes are written as the four digits to the base 64 of the number they are |
| Base64.TailIsBigEndian | internal/token/token.go:78 | one or two last bytes are written as if zero bits followed, without padding |
| Base64.LineBreaksAreSkipped | internal/token/token.go:101 | line breaks make no difference to decoding |
| Base64.DecodesIff | internal/token/token.go:101-104 | a text without them decodes iff its characters are of the alphabet and no single one is left over |
| Base64.UnusedBitsAreDropped | internal/token/token.go:101 | the unused bits of a last short group are not checked |
| Pat.UnwrapWrap | internal/token/token.go:78-106 | every nonempty text is recovered from its framed form |
| Pat.UnwrapIff | internal/token/token.go:95-106 | for any text: what is unwrapped stands behind the prefix, where there is one, as it is if it holds a dot, and else encoded; anything else is malformed |
| Pat.UnprefixedUnwraps | internal/token/token.go:95-106 | it is recovered from the encoding without prefix iff the text does not start with the four bytes that encode to the prefix |
| Pat.JwtUnwraps | internal/token/token.go:88-106 | every JWT is recovered from all three forms that Verify tolerates, which so get one verdict |
| Session.Codec.GetIff | internal/session/session.go:62-96 | whatever the cookie: it carries a session iff it is a body and the signature of what the body encodes, which is a payload with values that has not expired; the session is what the payload says |
| Session.Codec.ForgedIsRejected | internal/session/session.go:79-83 | a cookie whose second part is not the signature of its first carries no session |
| Session.Codec.GetSigned | internal/session/session.go:62-96 | a signed payload is read back, since the first '.' separates body and signature, iff it has values and has not expired |
| Session.Codec.GetSet | internal/session/session.go:62-125 | Get after Set returns the same nonempty values with the expiry cut to seconds, exactly until then; a zero expiry is twelve hours from then |
| Session.Codec.StepCarries | internal/portal/handlers.go:254-280 | flash and popFlash keep all values but the message, and the expiry |
| Session.Codec.RunCarries | internal/portal/handlers.go:254-280 | so does any sequence of them |
| Session.Codec.NoSessionNoFlash | internal/portal/handlers.go:257-276 | a cookie without a session is left as it is and shows no message |
| Session.Codec.NoMessageNoRewrite | internal/portal/handlers.go:261-264 | nor is one rewritten whose session holds no message |
| Session.Codec.SessionIsNeverExtended | internal/portal/handlers.go:254-280 | after any sequence of them the session is alive exactly until its original expiry, with all values but the flash message unchanged |
| Session.Codec.SignInLastsTwelveHours | internal/session/session.go:34-38 | who signs in stays the same subject for twelve hours up to the second, and no longer |
| Session.Codec.FlashIsShownOnce | internal/portal/handlers.go:254-280 | a nonempty message is shown once and then gone |
| Session.AuthCookieRoundTrip | internal/portal/handlers.go:118-188 | the three random values joined at sign-in are recovered by the callback |
| Session.SplitAuthCookieIff | internal/portal/handlers.go:181-188 | exactly three parts without dots are accepted |
| Gate.ScopeShape | internal/gate/gate.go:155-166 | a word parses to a scope iff it is that nonempty type and name, without ':', each followed by ':' |
| Gate.Sanitize | internal/gate/gate.go:254-269 | nothing recorded starts like a token; the name itself where it is short and not a token, its first 63 bytes and an ellipsis where it is long, and fixed words where it is empty or a token |
| GateHandler.ScopesOfParam | internal/gate/gate.go:146-150 | the loop over the words of one parameter |
| GateHandler.ParseAllScopes | internal/gate/gate.go:143-153 | the loop over all parameters; `ParamRoundTrip` and `ParamsConcat` say what it yields |
| GateHandler.AskLimiter | internal/gate/gate.go:274-275 | a limiter that is not configured admits everything |
| GateHandler.Handler.constructor | internal/gate/gate.go:86-117 | a limiter exists iff its count is positive |
| GateHandler.Handler.IncDecision | internal/gate/gate.go:411 | increments the counter of one decision and nothing else |
| GateHandler.Handler.RecordUsage | internal/gate/gate.go:412-414 | appends one record and nothing else |
| GateHandler.Handler.Allow | internal/gate/gate.go:407-416 | one increment, then one record, then one request upstream |
| GateHandler.Handler.Deny | internal/gate/gate.go:419-428 | one increment, then one record, the error, nothing upstream |
| GateHandler.Handler.AllowProbe | internal/gate/gate.go:349-366 | one increment, then one record, and the token itself with its remaining seconds |
| GateHandler.Handler.Verify | internal/gate/gate.go:208-221 | the claims iff the JWT library accepts the text at its clock reading and the row exists and is active at a reading of its own |
| GateHandler.Handler.CountAuthFailure | internal/gate/gate.go:273-290 | both limiters are asked, one increment, one record, and the answer is 429 iff one refuses |
| GateHandler.Handler.FirstUnknownProject | internal/gate/gate.go:232-243 | the loop finds the project of the first repository that is not mirrored, or "" |
| GateHandler.Handler.FindToken | internal/gate/gate.go:175-180 | the password is tried first, then a token-shaped user name |
| GateHandler.Handler.Grant | internal/gate/gate.go:189-203 | probe, forward or not mirrored, with the record of each |
| GateHandler.Handler.HandleAuthenticated | internal/gate/gate.go:170-204 | new state and response of the branch with credentials |
| GateHandler.Handler.HandleAnonymous | internal/gate/gate.go:293-334 | the two early-exit loops compute the anonymous answer |
| GateHandler.Handler.Decide | internal/gate/gate.go:131-138 | new state and response of a GET from a known address |
| GateHandler.Handler.ServeHTTP | internal/gate/gate.go:120-139 | new state and response of one request as it arrives, served as one from the address that its peer and headers determine; whitelist and token table are not touched |
| GateDecisions.PartsOfName | internal/gate/gate.go:336-343 | what stands before and behind the first slash of `project/rest`, and of `project` |
| GateDecisions.SameWords | internal/gate/gate.go:304-343 | the program's notions of repository, project, mirrored and upstream name are these, in literal terms |
| GateDecisions.AnonRowsExclude | internal/gate/gate.go:292-334 | at most one row of the anonymous table applies, and it fixes decision, recorded repository and response |
| GateDecisions.AnonRefinesTable | internal/gate/gate.go:293-334 | the anonymous branch decides, records and answers by that table over the whitelist's source lines and the parts of the names before and behind the first slash; a forwarded request carries the line that admits its first scope |
| GateDecisions.AnonForwardsIff | internal/gate/gate.go:1-9 | forwarded iff anonymous access is on, there is a scope, and all are repositories for which some line matches the upstream host, a slash, and what follows the project |
| GateDecisions.AnonPullIff | internal/gate/gate.go:315-333 | for one repository `p/rest` of a mirrored project: forwarded iff anonymous access is on and some line matches host, slash and rest; for `p` alone, host and slash |
| GateDecisions.KnownIffMirroredOrSlash | internal/gate/gate.go:226-243 | all projects are reported known iff all are mirrored or a name starting with '/' comes before every other one that is not |
| GateDecisions.GrantDecision | internal/gate/gate.go:189-203 | decision, record and response for a verified token; a probe is answered with the token itself and its remaining seconds |
| GateDecisions.FailureDecision | internal/gate/gate.go:273-290 | decision, record and response for rejected credentials |
| GateDecisions.ExpiresInIsClose | internal/gate/gate.go:356-359 | the stated validity is at least a second; of a second or more it is the whole seconds left or, where floating-point rounding carries, one more |
| GateDecisions.AuthedRowsExclude | internal/gate/gate.go:168-204 | at most one row of the table for credentials applies, and it fixes decision, recorded repository and response |
| GateDecisions.AuthedMeetsTable | internal/gate/gate.go:168-204 | decision, record and response are the table's iff not both the token is valid and a name starting with '/' comes first; then the request is forwarded against the table |
| GateDecisions.ServeMeetsTable | internal/gate/gate.go:119-139 | every GET, from raw parameters to record and response, is decided by the two tables, with that one exception |
| GateDecisions.AuthedMeetsTableWithoutSlash | internal/gate/gate.go:223-243 | without repository names starting with '/' the table is met |
| GateDecisions.SlashIsForwarded | internal/gate/gate.go:230-243 | a valid token with one repository whose name starts with '/' is forwarded although it is not mirrored |
| GateDecisions.SlashExample | internal/gate/gate.go:230-243 | `scope=repository:/x:pull` with any valid token is forwarded although `docker.io` is the only project mirrored |
| GateDecisions.IdentifiedIffPresented | internal/gate/gate.go:171-180 | credentials are accepted iff the password, or else a token-shaped user name, verifies to claims whose row is active |
| GateDecisions.GrantedTokenIsLive | internal/gate/gate.go:206-221 | whoever is granted anything holds a token that the portal's history created, did not revoke, and that has not expired |
| GateDecisions.RevokedTokenIsBad | internal/gate/gate.go:213-219 | a framed token whose row was revoked is answered as a bad token ever after, unless the user name is itself another, live token |
| GateDecisions.ParamRoundTrip | internal/gate/gate.go:141-166 | scopes written into a parameter, separated by spaces, are read back in order |
| GateDecisions.ParamsConcat | internal/gate/gate.go:141-153 | scopes of several parameters are read one after the other |
| GateDecisions.RequestsAreWellFormed | internal/gate/gate.go:155-166 | every parsed scope has a nonempty type and name without ':' |
| GateRuns.CountAndLog | internal/gate/gate.go:280-283 | incrementing a counter and writing a record keep the two in step iff they are given the same decision |
| GateRuns.GetIsBooked | internal/gate/gate.go:407-428 | a GET writes one record, increments the counter of its decision alone, is forwarded iff that decision allows it, and moves the limiters only for a rejected token |
| GateRuns.OtherMethodsChangeNothing | internal/gate/gate.go:123-128 | any other method is answered 405 with a fixed message and changes nothing |
| GateRuns.AcceptedAreMarked | internal/gate/gate.go:186-187 | an id is marked as used iff its token was accepted |
| GateRuns.BooksBalance | internal/gate/gate.go:407-428 | over every run: one record for every GET in order, every counter the number of its records, upstream exactly the requests whose record allows them, and no record of a bad token has a subject that starts with the token prefix |
| GateRuns.RecordsFollowTables | internal/gate/gate.go:119-139 | in every run, whatever follows, the record of the n-th GET is the n-th record, and record and response are what the decision tables say, with their one exception |
| GateRuns.CountersAddUp | internal/gate/gate.go:407-428 | the counters add up to the number of GETs, the two allowing ones to the number forwarded |
| GateRuns.FailureAsksBoth | internal/gate/gate.go:273-289 | a rejected token is put to both limiters under its own keys; 401 iff both admit it, else 429 |
| GateRuns.OthersAskNone | internal/gate/gate.go:182-185 | anything else leaves both limiters alone |
| GateRuns.LimitersSeeEveryFailure | internal/gate/gate.go:274-275 | over every run each limiter has seen all rejected tokens and nothing else, whatever the other answered |
| GateRuns.FailureAnswer | internal/gate/gate.go:284-289 | in every run a rejected token is answered 401 iff both limiters, run over all failures so far, admit it, else 429 |
| GateRuns.AnsweredWereAdmitted | internal/gate/gate.go:284-289 | in any interval the 401s of a client or user name are at most its admitted failures |
| GateRuns.FailuresAreBounded | internal/gate/gate.go:273-289 | no interval of a window (less the skew) holds more 401s for one client, or one user name, than the configured count |
| GateRuns.FailureAnswerIsNaive | internal/gate/gate.go:273-289 | with a nondecreasing clock the answer is 401 iff neither the client nor the user name has used up its count of failures in the window |
| GateClients.SpoofedRunIsSame | internal/httpx/ip.go:46-79 | if every client adds to its headers what it likes, the gate serves the same run |
| GateClients.SpoofingGainsNothing | internal/gate/gate.go:130 | so no client gets more 401s in a window by claiming to forward for others |
| GateConcurrency.StepsMakeFailure | internal/gate/gate.go:273-290 | asking the two limiters without interleaving is a whole failure |
| GateConcurrency.LimitersSeeTheirCalls | internal/gate/gate.go:274-275 | in every interleaving each limiter is where the calls that reached it, in that order, have left it |
| GateConcurrency.AnsweredAreCovered | internal/gate/gate.go:284-289 | in every interleaving what was answered 401, or still may be, was admitted by the limiter |
| GateConcurrency.ConcurrentFailuresAreBounded | internal/gate/gate.go:273-289 | in every interleaving no interval of a window (less the skew at that limiter) holds more 401s for one client, or one user name, than the configured count |

## Left out

- HTTP plumbing, templates, static assets, the `ServeMux` and `PingHandler`: a response is a status with code and message, a probe answer, or "forwarded".
- `forward`, the OIDC and GitHub clients: network calls; whether a request is forwarded is in the model, what comes back is not.
- Cryptography, JWT, JSON and PEM: parameters. A token check is any function from a clock reading and the unwrapped text to claims, a signature any function of the bytes, JSON any encoding that decoding undoes; that forging is infeasible is not stated.
- SQL and its driver: a table is a map, one statement is one atomic step, and a statement that fails (other than by a conflict) is an input to the portal and secrets models; `Store` and the gate's reads do not fail for such reasons.
- fsnotify, SIGHUP, goroutines and mutexes: a reload is one step, so two overlapping reloads are not modelled; one limiter call and, outside `PortalConcurrency` and `GateConcurrency`, one portal handler and one gate request are one step each.
- Asynchronous usage and last-used writes: the gate model appends them to its log; that the queue may be full or the write late is not modelled.
- Two rotations of one active token interleaved: both skip the count, so the cap is not claimed there; rotations are whole steps in `PortalConcurrency`, at a clock reading taken when they run.
- Usage listing, pruning and summary, the admin pages other than revocation: simple queries.
- Configuration loading, metrics text, logs, Helm charts; of `validate` only what the theorems assume (0 < default <= maximum validity, no empty project name).
- Syntax of networks, addresses and rates: `ClientIP` takes parsing, printing and membership as parameters; limits are given as counts and windows.
- Text: a string is a sequence of characters, but tokens and Basic credentials are sequences of bytes. The note is measured in UTF-8 bytes; invalid UTF-8 elsewhere is not modelled.
- Clock readings outside the years that 64-bit nanoseconds can represent (expiries beyond them are modelled); the limiter's times are unbounded integers.
- `ParseForm` failures, failing random numbers and key generation, and the not-before claim.
- Floating point: rounding is a parameter that keeps order and integers of up to 53 bits, not the IEEE 754 algorithm.
- Whitelist.Enter: builds a new table value where the program updates the one it is building; the table is not visible to others before it is complete.
