# A Dafny model of KAIROS

KAIROS is a self-hosted Postgres platform: an API, a client SDK and a root-level
server agent. This project models the parts of it that hold an algorithm or a
state machine, and proves what they promise for every input or every run.

Each method follows the source's loop or handler and is proved equal to a
specification function; the theorems are lemmas about those functions, so they
hold of the methods too. Objects that the source mutates are classes. What the
model cannot see (hashes, the clock, the database, `Number(...)`, `isIP`) is a
parameter, and results hold for every value of it that their `requires` admits.

| files | component |
|---|---|
| Client, Rest, FilterMeaning, OrderMeaning, Statements | the SDK's query builder, the server's SQL compiler, and what survives between them |
| Base32, Totp, Mfa | second factors: base32 with an unmasked accumulator, one-time codes, single use over runs |
| Csv | the CSV parser against RFC 4180 and against the exporter |
| Histogram, MetricsRegistry | bucketed latencies against the multiset of observations they stand for |
| PoolManager, PoolSaturation | the connection allocator under a budget, interleaved at its awaits |
| AgentAuth, Framing | replay-proof signed requests, and newline framing over a stream |
| Windows | fixed-window quota and rate counters |
| Cidr, Ssrf | CIDR masks and outbound address vetting |
| Tokeniser, Shell, ShellCommands, ShellRules | the operator shell |
| Validate, Operations | argument validation, the operation registry and its confirmations |
| Realtime | grouped authorization of change events |
| Sessions | refresh-token rotation |
| Tuning | PostgreSQL memory settings |
| Common, Text, Arithmetic, Bits, Words | shared definitions |

## Where the code and its description part

The model follows the code. Each of these has a lemma that pins it down exactly.

- Filters on a repeated or reserved column are dropped, and list items that are
  empty or hold a comma are re-split: `FilterMeaning.MeaningPreservedIff`.
- Operator and alias tables are plain objects, so inherited names such as
  `constructor` pass their guards: `FilterMeaning.OperatorGuardExactly`,
  `ShellCommands.UndefinedOperationIff`.
- `schema` names the schema and is a filter as well: `FilterMeaning.SchemaAlsoFilters`.
- A replayed refresh token ends all of its user's sessions, where the comment and
  docs/API.md speak of the token family; the two agree exactly when the user has no
  other live sign-in: `Sessions.ReuseStaysInFamilyIff`.
- Rotation is not one transaction: if the new row is refused the old session is
  already revoked (`Sessions.SessionStore.Rotate`).
- An import turns the empty text into NULL, and a one-column file loses such rows:
  `Csv.ExportImportRoundTrip`, `Csv.NarrowRowsKept`.
- Two overlapping misses on a project leave a pool open that the map no longer
  knows: `PoolManager.OverlapLosesPool`, and exactly when: `PoolManager.NoPoolLostIff`.
- The memory settings overshoot their budget on common machines, by at most a
  thirty-second: `Tuning.EightGigabytes`, `Tuning.OvershootBound`.
- Table metadata is cached under the project and the dotted table name, so tables
  whose dotted names agree share an entry: `Realtime.SameCacheKeyIff`; names that
  are identifiers never do: `Realtime.CacheKeyInjective`.
- Grouping by user is exact only while one user's sockets present equal claims:
  `Realtime.GroupingExactIff`.

## Model

| member | source | states |
|---|---|---|
| Client.QueryBuilder.Compare | packages/client/src/index.ts:44-51 | a comparison call records exactly one wish after the earlier ones |
| Client.QueryBuilder.Is | packages/client/src/index.ts:52 | likewise for `is`, printing null, true or false |
| Client.QueryBuilder.In | packages/client/src/index.ts:53 | likewise for `in`, printing a parenthesised list |
| Client.QueryBuilder.Order | packages/client/src/index.ts:55-60 | a sorting is appended as `column.direction[.nulls]` |
| Client.QueryBuilder.Range | packages/client/src/index.ts:63 | offset and limit select the rows from `from` to `to`, both included |
| Client.QueryBuilder.BuildQueryString | packages/client/src/index.ts:73-87 | the printed parameters are the settings (GET only) followed by one pair per recorded filter, in order |
| Client.SettingsSay | packages/client/src/index.ts:73-81 | for GET only, each setting is printed exactly when it is set, once, under its own name and with its own value |
| Client.ShowIntReads | packages/client/src/index.ts:78-79 | a printed limit or offset reads back as the number |
| Rest.BuildFilters | services/api/src/modules/rest.routes.ts:24-63 | the loop returns the clauses and values of the specification, or its first error |
| Rest.PlaceholdersInOrder | services/api/src/modules/rest.routes.ts:24-63 | the placeholders of a clause list are `$start`, `$start+1`, ..., ascending, one for each value |
| Rest.IdentGrows | services/api/src/lib/sql.ts:8-20 | identifiers are a letter or underscore followed by up to 62 letters, digits, `_` and `$` |
| Rest.NumberAllHolds | services/api/src/modules/rest.routes.ts:24-63 | numbered clauses mean what the filters mean wherever they stand: after any parameters already bound and before any bound later |
| FilterMeaning.ServerEnforces | services/api/src/modules/rest.routes.ts:29-60 | for every filter list the SDK can print: the query is accepted exactly when each enforced filter is acceptable, and then the clause under its values holds of a row exactly when every enforced filter does |
| FilterMeaning.FaithfulMeaning | packages/client/src/index.ts:73-87 | on distinct, unreserved columns with non-empty comma-free list items, the compiled clause means what the SDK filters mean |
| FilterMeaning.MeaningPreservedIff | services/api/src/modules/rest.routes.ts:24-63 | an accepted filter list means the same to SDK and server on every row if and only if it satisfies that condition |
| FilterMeaning.OperatorGuardExactly | services/api/src/modules/rest.routes.ts:36-37 | the unknown-operator error is raised exactly for names neither in the table nor inherited by an object literal |
| FilterMeaning.ComparisonMeans | services/api/src/modules/rest.routes.ts:15-59 | each comparison operator, `cs` and `cd` included, asks of a row the comparison it is named for, with `*` a wildcard in `like` and `ilike` only |
| FilterMeaning.IsMeans | services/api/src/modules/rest.routes.ts:39-46 | `is` takes null, not.null, true and false in any case, and nothing else |
| FilterMeaning.InMeans | services/api/src/modules/rest.routes.ts:48-54 | a list, in parentheses or not, is accepted if some item is not empty and matches the rows equal to one |
| FilterMeaning.QueryMeans | services/api/src/modules/rest.routes.ts:24-63 | compiled anywhere in a statement, any accepted query means that each parameter with an unreserved key given once holds |
| FilterMeaning.DotlessIsEquality | services/api/src/modules/rest.routes.ts:32-34 | a parameter without a dot holds exactly of the rows whose column equals its value |
| FilterMeaning.ColumnFilteredIff | services/api/src/modules/rest.routes.ts:29-59 | an accepted query filters on a column exactly when its key is unreserved and given once |
| FilterMeaning.ReservedKeys | services/api/src/modules/rest.routes.ts:20-30 | a key given once filters exactly when it is not one of the seven reserved ones |
| FilterMeaning.SchemaAlsoFilters | services/api/src/modules/rest.routes.ts:20-30 | `schema` is not reserved: every accepted query filters on a column of that name exactly when it gives the key once, and a plain schema name makes the clause imply that the column equals it |
| OrderMeaning.OrderPreserved | services/api/src/modules/rest.routes.ts:70-79 | every list of sortings on valid columns that the SDK prints arrives as the same ORDER BY terms, in order |
| OrderMeaning.TermMeans | services/api/src/modules/rest.routes.ts:70-79 | every term is a column and modifiers of which `desc`, `nullsfirst` and `nullslast` count, nulls first winning, white space around it ignored |
| OrderMeaning.OrderRejects | services/api/src/modules/rest.routes.ts:70-79 | no order gives no terms, and an order is rejected exactly when one of its pieces is |
| Statements.BuildTuples | services/api/src/modules/rest.routes.ts:198-203 | tuples are numbered row-major from `$1` and the values are the cells in that order |
| Statements.InsertedRows | services/api/src/modules/rest.routes.ts:198-206 | under its values, row-major numbering hands each row its own cells, after any values already bound |
| Statements.BuildInsert | services/api/src/modules/rest.routes.ts:188-206 | an insert is built exactly for a non-empty payload whose first row has valid columns, and inserts exactly the rows of the payload |
| Statements.BuildUpdate | services/api/src/modules/rest.routes.ts:222-242 | assignments then filters number 1..n in step with the values, each assignment gets its own JSON value, every filter parameter is bound to its text, and the WHERE clause means the filters; it is built exactly for a non-empty patch on valid columns with at least one filter and no bad one |
| Statements.ImportBatches | services/api/src/modules/import-export.routes.ts:244-262 | batches of 500, the last of at most 500, together insert exactly the records, once each and in order |
| Base32.WordReads | services/api/src/lib/totp.ts:35-54 | on 32-bit words `(value << 8) | byte` and `(value << 5) | index` are the steps the model takes on numbers |
| Base32.WordShifts | services/api/src/lib/totp.ts:38-57 | `value >>> k` and `value << k` shift the number the word writes, for every amount of the two loops, bits past 31 being dropped |
| Base32.WordMasks | services/api/src/lib/totp.ts:38-57 | `& 31` and `& 0xff` keep the low 5 and 8 bits of that number |
| Base32.Base32Encode | services/api/src/lib/totp.ts:30-44 | the unmasked 32-bit accumulator computes the RFC 4648 section 6 encoding without padding |
| Base32.EncodedValue | services/api/src/lib/totp.ts:30-44 | the encoding is the base-32 numeral of the input bits padded with zeros to a multiple of five |
| Base32.Base32Decode | services/api/src/lib/totp.ts:46-62 | the decoding loop computes the whole bytes of the typed number, or rejects the secret at a foreign character |
| Base32.RoundTrip | services/api/src/lib/totp.ts:30-62 | decoding undoes encoding for every byte sequence, however case, spaces and `=` were typed |
| Base32.RoundTripExact | services/api/src/lib/totp.ts:30-62 | in particular on the encoded text itself, which has ceil(8n/5) characters |
| Base32.CanonicalSecrets | services/api/src/lib/totp.ts:46-62 | a decoded secret re-encodes to itself if and only if no whole character was dropped and the dropped bits were zero |
| Base32.CleanIs | services/api/src/lib/totp.ts:47 | cleaning drops spaces and `=`, capitalises and keeps everything else, in order |
| Totp.BinaryIsDynamicTruncation | services/api/src/lib/totp.ts:79-84 | the joined bytes are the big-endian number of the four bytes at `digest[19] % 16`, modulo 2^31 (RFC 4226 section 5.3) |
| Totp.CodeIsSixDigits | services/api/src/lib/totp.ts:86 | the code is six decimal digits denoting the truncated value modulo a million |
| Totp.VerifyTotp | services/api/src/lib/totp.ts:106-124 | the window loop returns the first acceptable step, or none |
| Totp.VerifiedExactly | services/api/src/lib/totp.ts:106-124 | a code is accepted if and only if it is the code of an unused step within one of the current step (RFC 6238 section 5.2) |
| Totp.StepIsThirtySeconds | services/api/src/lib/totp.ts:89-91 | steps are thirty seconds long, counted from the epoch |
| Totp.WithoutSpacesIs | services/api/src/lib/totp.ts:107 | white space in a typed code is dropped and everything else kept, in order |
| Mfa.UserMfa.Enroll | services/api/src/modules/mfa.routes.ts:133-147 | enrolment replaces any unconfirmed secret and is refused once confirmed |
| Mfa.UserMfa.Confirm | services/api/src/modules/mfa.routes.ts:162-191 | a valid code confirms the row, stores its step and replaces the backup codes |
| Mfa.UserMfa.VerifyMfaCode | services/api/src/modules/mfa.routes.ts:77-102 | a code advances `last_step`, or spends an unused backup code with its hash, or is rejected |
| Mfa.UserMfa.Regenerate | services/api/src/modules/mfa.routes.ts:231-248 | backup codes are replaced only after a verified code |
| Mfa.UserMfa.Disable | services/api/src/modules/mfa.routes.ts:213-224 | a correct password removes the row and every backup code |
| Mfa.TotpSingleUse | services/api/src/modules/mfa.routes.ts:77-191 | over any run without disabling, accepted steps strictly increase, the confirming one included, each within one step of the clock that accepted it |
| Mfa.BackupSingleUse | services/api/src/modules/mfa.routes.ts:92-101 | over any run, a backup code accepted twice was issued again in between |
| Mfa.LoginAccepts | services/api/src/modules/mfa.routes.ts:77-102 | a login passes if and only if the factor is confirmed and the code is current or an unused backup code; exactly the step or the spent code changes |
| Mfa.ConfirmAccepts | services/api/src/modules/mfa.routes.ts:162-191 | a confirmation passes if and only if it is the first and its code is current, and then every issued code is stored unused |
| Mfa.OtherRequests | services/api/src/modules/mfa.routes.ts:133-248 | the states after enrolling, renewing backup codes and disabling, and when each is refused |
| Mfa.BackupStaysGood | services/api/src/modules/mfa.routes.ts:77-248 | an unused backup code stays unused over every run that does not use it, renew the codes or disable the factor |
| Mfa.BackupLetsIn | services/api/src/modules/mfa.routes.ts:77-102 | after such a run the code lets its user in, however it is typed |
| Csv.ParseCsv | services/api/src/modules/import-export.routes.ts:30-72 | the character machine computes the rows of the specification |
| Csv.ParseRendered | services/api/src/modules/import-export.routes.ts:30-72 | every file RFC 4180 section 2 allows for some rows, however quoted and whatever its line ends, parses to exactly those rows, minus single empty fields |
| Csv.ToCsvValue | services/api/src/modules/import-export.routes.ts:74-85 | the shown field is the text, quoted exactly when it holds a special character or starts like a formula |
| Csv.ExportCsv | services/api/src/modules/import-export.routes.ts:119-126 | the export loop writes the header and one line per row |
| Csv.ExportParses | services/api/src/modules/import-export.routes.ts:30-126 | parsing an export returns the original field texts; only single empty fields are lost |
| Csv.RecordOfAt | services/api/src/modules/import-export.routes.ts:177-186 | with distinct names each column of the record is its own field, empty and missing ones being null |
| Csv.ExportImportRoundTrip | services/api/src/modules/import-export.routes.ts:119-186 | export then import returns the table with only the empty text turned into null, except that one-column tables lose rows |
| Csv.NarrowRowsKept | services/api/src/modules/import-export.routes.ts:71 | with one column no row is lost if and only if none shows as the empty text |
| Histogram.Histogram.Observe | services/api/src/lib/metrics.ts:41-49 | the four fields stay what the observations since the last reset amount to |
| Histogram.Histogram.QuantileAt | services/api/src/lib/metrics.ts:56-73 | the loop computes the specification's quantile; QuantileInterpolates says what that is |
| Histogram.QuantileInterpolates | services/api/src/lib/metrics.ts:56-73 | for 0 < q <= 1 the quantile is the nearest hundredth to the point as far along its bucket as the rank q*n is among the observations counted there |
| Histogram.Histogram.TakeSnapshot | services/api/src/lib/metrics.ts:75-92 | bucket i counts exactly the observations not above bound i, and the last one all of them |
| Histogram.Histogram.Reset | services/api/src/lib/metrics.ts:94-99 | a reset stands for no observations |
| Histogram.LocatedNonEmpty | services/api/src/lib/metrics.ts:61-66 | for 0 < q <= 1 the loop stops at an existing non-empty bucket, so the empty-bucket branch is unreachable |
| Histogram.BoundsByDecade | services/api/src/lib/metrics.ts:23 | the thirteen bounds are 1, 2.5 and 5 milliseconds and their tenfolds up to ten seconds |
| Histogram.QuantileBucket | services/api/src/lib/metrics.ts:56-73 | before rounding, a quantile lies in the same bucket as the ceil(q*n)-th smallest of all observations |
| Histogram.QuantilesOrdered | services/api/src/lib/metrics.ts:87-89 | larger quantiles are never smaller: p50 <= p95 <= p99 |
| MetricsRegistry.Registry.Observe | services/api/src/lib/metrics.ts:127-141 | an observation goes to its own series; a new series is refused once there are 500 |
| MetricsRegistry.Registry.ResetHistograms | services/api/src/lib/metrics.ts:184-186 | every series is kept and emptied |
| MetricsRegistry.RegistryExact | services/api/src/lib/metrics.ts:127-186 | over any run the registry holds the first 500 keys and no others, each with all its observations since the last reset |
| PoolManager.SliceFor | services/api/src/db/pool-manager.ts:73-77 | a slice is at least the minimum, at most the maximum, and at most a quota that is not below the minimum |
| PoolManager.SliceExactly | services/api/src/db/pool-manager.ts:73-77 | the slice is the largest number within the maximum, the quota and an equal share of the budget, or the minimum if that is larger |
| PoolManager.Manager.Allocated | services/api/src/db/pool-manager.ts:80-84 | the sum of the slices of the map |
| PoolManager.Manager.Lookup | services/api/src/db/pool-manager.ts:124-131 | a hit is touched and returned, a miss suspends the request; HitOutlivesReap says what the touch is worth |
| PoolManager.HitOutlivesReap | services/api/src/db/pool-manager.ts:124-199 | a pool asked for at t outlives exactly the timer runs up to t + 300000 ms |
| PoolManager.UseKeepsPool | services/api/src/db/pool-manager.ts:124-199 | over every run after a hit the project stays in the map while it is not evicted, timers come within five minutes and opens within thirty seconds |
| PoolManager.Manager.OpenPool | services/api/src/db/pool-manager.ts:147-176 | the piece after the last await: size, reclaim once, refuse or open |
| PoolManager.OpenExactly | services/api/src/db/pool-manager.ts:147-176 | an open goes beside all pools if its slice fits, else beside those used in the last thirty seconds if it fits there, else nowhere |
| PoolManager.Manager.ReapBefore | services/api/src/db/pool-manager.ts:191-199 | exactly the pools last used before the cutoff are closed |
| PoolManager.ReapExactly | services/api/src/db/pool-manager.ts:191-199 | the timer closes exactly the pools not asked for in the last five minutes |
| PoolManager.OpenOutlivesReap | services/api/src/db/pool-manager.ts:147-199 | a pool opened at t outlives exactly the timer runs up to t + 300000 ms |
| PoolManager.Manager.EvictProject | services/api/src/db/pool-manager.ts:179-184 | the project's pool is removed and closed |
| PoolManager.OtherStepsExactly | services/api/src/db/pool-manager.ts:124-184 | an eviction closes one project's pool and no other; a request without credentials never opens one |
| PoolManager.BudgetKept | services/api/src/db/pool-manager.ts:124-199 | over every interleaving of gets, reaps and evictions the slices total at most the budget, each is at least the minimum, so there are at most budget/min pools |
| PoolManager.NoPoolLostIff | services/api/src/db/pool-manager.ts:124-199 | over every interleaving the open pools are exactly those of the map if and only if no open finds, after reclaiming, a pool of its project still there |
| PoolManager.NoPoolLost | services/api/src/db/pool-manager.ts:124-199 | in particular when no two misses on one project overlap |
| PoolManager.OpenTracked | services/api/src/db/pool-manager.ts:165-176 | one open keeps every open pool in the map if and only if the project had none there |
| PoolManager.OverwriteLosesPool | services/api/src/db/pool-manager.ts:165-176 | otherwise the overwritten pool stays open, out of the map, for every later run, reclaiming included |
| PoolManager.OverlapLosesPool | services/api/src/db/pool-manager.ts:124-176 | from the empty map two overlapping misses on one project end with two open pools and one in the map, wherever two slices fit |
| PoolSaturation.ExactSaturation | services/api/src/db/pool-manager.ts:147-174 | opens at any times with no pool idle give budget/max full pools, then one of max-1 exactly when that remains and the minimum allows it, then refusals |
| PoolSaturation.CloseSaturation | services/api/src/db/pool-manager.ts:147-174 | so do opens each within thirty seconds of every earlier one |
| AgentAuth.Verifier.Check | services/server-agent/src/auth.ts:46-87 | every check in order, and the nonce map after it |
| AgentAuth.Verifier.PruneNonces | services/server-agent/src/auth.ts:37-42 | from 512 nonces on, those older than twice the skew are forgotten |
| AgentAuth.NonceOrder | services/server-agent/src/auth.ts:35-87 | with a clock that does not go back, a nonce is accepted again only for a request sent strictly later |
| AgentAuth.NoReplay | services/server-agent/src/auth.ts:35-87 | so no signed request is accepted twice over any run, pruning included |
| AgentAuth.MessageInjective | services/server-agent/src/auth.ts:24-28 | the signed text determines time, nonce, path, body and the verb up to case when the first four fields have no line feed |
| AgentAuth.AcceptedWasSigned | services/server-agent/src/auth.ts:75-82 | under a collision-free hash, an accepted request is a request for the fields that were signed |
| AgentAuth.LineFeedsCollide | services/api/src/lib/agent-client.ts:73-78 | without that condition a line of the path and of the body can be exchanged |
| AgentAuth.AcceptedIff | services/server-agent/src/auth.ts:46-87 | exactly what is accepted: three headers, a fresh nonce of 16 to 128 characters, a time within the skew on either side, and the hash of the five fields one to a line |
| AgentAuth.RememberedExactly | services/server-agent/src/auth.ts:37-86 | an accepted nonce is remembered with its time, the others unless older than twice the skew from 512 on; a refusal changes nothing |
| AgentAuth.FreshAccepted | services/server-agent/src/auth.ts:35-87 | after any run from a new verifier, a request signed and timed as it should be is accepted if its nonce was never accepted before |
| Framing.Reader.OnData | services/api/src/lib/agent-client.ts:345-359 | one chunk yields the complete non-blank lines it finishes and leaves the unfinished one |
| Framing.StreamReads | services/api/src/lib/agent-client.ts:342-359 | any newline-free lines and an unfinished one are read back from the stream they make |
| Framing.ChunkingIrrelevant | services/api/src/lib/agent-client.ts:342-359 | every way of cutting a stream yields the same lines in order and the same leftover |
| Framing.FramesRecovered | services/server-agent/src/server.ts:72-74 | frames written as newline-free text plus a line feed are delivered unchanged, whatever the chunks |
| Framing.BadLineDropped | services/api/src/lib/agent-client.ts:352-358 | a line that does not parse is dropped by itself, the frames around it are delivered |
| Windows.QuotaCounter.Consume | services/api/src/lib/quotas.ts:282-299 | increment, expiry on the first write, acceptance up to the limit |
| Windows.ConsumeInBucket | services/api/src/lib/quotas.ts:283-291 | a key outlives its bucket, so a call in a bucket adds to the counter and leaves every other bucket alone |
| Windows.ConsumeExpires | services/api/src/lib/quotas.ts:288-291 | a key disappears one window length and a minute after its first write |
| Windows.QuotaBound | services/api/src/lib/quotas.ts:265-307 | accepted amounts total at most the limit in each bucket and twice the limit in any interval one window long |
| Windows.QuotaBoundReached | services/api/src/lib/quotas.ts:268-271 | the factor of two is reached across an edge |
| Windows.RateLimiter.Consume | services/api/src/lib/rate-limit.ts:24-34 | the first request opens the window, and requests up to the points are accepted |
| Windows.RateBound | services/api/src/lib/rate-limit.ts:24-34 | at most one request less than twice the points passes in any interval one window long |
| Windows.RateBoundReached | services/api/src/lib/rate-limit.ts:24-34 | and that many do, for every limit, across the edge of a window |
| Ssrf.ParseIpv4 | services/api/src/lib/ssrf.ts:53-63 | the accumulating loop computes the word of four octets, or nothing |
| Ssrf.PrintParses | services/api/src/lib/ssrf.ts:53-63 | parsing inverts dotted-quad printing for every 32-bit address |
| Ssrf.QuadIff | services/api/src/lib/ssrf.ts:53-63 | a text is an address exactly when it has four parts each read as an octet, and its word is these octets |
| Cidr.MaskIsInterval | services/api/src/lib/ssrf.ts:71-72 | equality under the mask is membership in the interval of the block, for every prefix and aligned base (RFC 4632 section 3.1) |
| Ssrf.TableAligned | services/api/src/lib/ssrf.ts:36-51 | every listed base is aligned to its prefix |
| Ssrf.ReservedByOctets | services/api/src/lib/ssrf.ts:36-51 | the refused addresses are exactly 0/8, 10/8, 127/8, 169.254/16, 172.16/12, 192.168/16 and the other listed ranges, by their octets |
| Ssrf.MatchesAny | services/api/src/lib/ssrf.ts:68-74 | the loop finds a block exactly when the value is in the union of the ranges |
| Ssrf.IsBlockedV4 | services/api/src/lib/ssrf.ts:65-75 | blocked means unparseable or inside a listed range, and nothing else |
| Ssrf.IsBlockedAddress | services/api/src/lib/ssrf.ts:93-98 | the family decides which rule applies; anything that is not a literal is blocked |
| Ssrf.Vet | services/api/src/lib/ssrf.ts:178-195 | a target is accepted exactly when it resolved and is allow-listed or has no blocked address; the first address is chosen and is outside every listed range |
| Ssrf.PrintedReserved | services/api/src/lib/ssrf.ts:65-75 | among printed addresses exactly the reserved ones are blocked |
| Tokeniser.Tokenise | services/server-agent/src/shell.ts:40-64 | the quote-aware loop computes the words of the specification |
| Tokeniser.WrittenReads | services/server-agent/src/shell.ts:40-64 | words written in any mixture of bare characters and quoted runs, with any white space between, before and after them, read back as what they mean |
| Tokeniser.UnclosedReads | services/server-agent/src/shell.ts:40-64 | a quote that is never closed runs to the end of the line |
| Tokeniser.PlainReads | services/server-agent/src/shell.ts:40-64 | in particular plain words joined by single spaces read back unchanged |
| Tokeniser.Expressible | services/server-agent/src/shell.ts:40-64 | some line reads as a given list of words if and only if none of them is empty |
| Shell.ChosenIsLongest | services/server-agent/src/shell.ts:206-210 | the first candidate is a longest matching rule, and there is one unless nothing matches |
| Shell.OrderMattersIff | services/server-agent/src/shell.ts:206-210 | the choice is independent of the order of the rules if and only if no two rules share a path |
| Shell.FillPositional | services/server-agent/src/shell.ts:221-250 | the positional loop computes the arguments or the first error |
| Shell.FillAccepts | services/server-agent/src/shell.ts:221-250 | it succeeds exactly when every word has a slot that admits it and every slot left over is optional |
| Shell.FillFails | services/server-agent/src/shell.ts:221-250 | a line is refused with the error of its first slot that is not satisfied, or for extra words |
| Shell.FillBinds | services/server-agent/src/shell.ts:221-250 | success binds under each slot's name the whole number, the lower-cased listed value or the very word typed there, and nothing else |
| ShellCommands.Parse | services/server-agent/src/shell.ts:170-255 | dispatch on the first word, then rule choice and arguments |
| ShellCommands.KairosParsesIff | services/server-agent/src/shell.ts:203-254 | a `kairos` line parses exactly when a longest matching rule and its slots account for every word |
| ShellCommands.KairosCommandMeans | services/server-agent/src/shell.ts:203-254 | the command is that rule's: required arguments present, enumerated ones in their list, whole numbers whole, nothing else bound |
| ShellCommands.CommandRoundTrip | services/server-agent/src/shell.ts:40-254 | however the words of an accounted line are spelled, quoted and spaced, the line parses to its rule and binds its words |
| ShellCommands.HeadDecides | services/server-agent/src/shell.ts:174-201 | a line not starting with `kairos` is one of eight words of the shell, an alias without arguments, or refused |
| ShellCommands.UnknownRefused | services/server-agent/src/shell.ts:171-219 | an empty line is refused, `kairos` alone is help, and a `kairos` line is an unknown command exactly when no rule begins it |
| ShellCommands.PathCaseInsensitive | services/server-agent/src/shell.ts:203-210 | the choice of a rule does not look at the case of letters |
| ShellCommands.UndefinedOperationIff | services/server-agent/src/shell.ts:191-195 | a line is accepted without an operation exactly when its first word is an inherited property name |
| ShellRules.PathsDistinct | services/server-agent/src/shell.ts:76-144 | no two rules of the table share a path, so their order does not matter |
| ShellRules.TableReachable | services/server-agent/src/shell.ts:76-144 | every rule is reached by every line that spells its path, in any case, and words its slots admit; `logs sources` is never read as a source |
| Validate.ParseArgs | services/server-agent/src/validate.ts:31-102 | both loops compute the output or the first error |
| Validate.ParsesIff | services/server-agent/src/validate.ts:31-102 | parsing succeeds exactly when every supplied key is declared and each entry is satisfied, by a value of its kind in range or by being optional |
| Validate.NotAnObject | services/server-agent/src/validate.ts:32-40 | an input that is not an object counts as an empty one, and without a schema only that is accepted |
| Validate.NullIsAbsent | services/server-agent/src/validate.ts:54-61 | a null argument counts as one that was not given |
| Validate.OutputMeets | services/server-agent/src/validate.ts:53-101 | the output has only declared keys, every required one, each supplied value itself or the integer it is read as, meeting its specification, and defaults in place of what was omitted |
| Validate.IdempotentIff | services/server-agent/src/validate.ts:53-101 | parsing the output again returns it unchanged if and only if every default that was used meets its own specification |
| Operations.Registry.Register | services/server-agent/src/registry.ts:63-77 | registration stops at the first duplicate or phraseless dangerous operation with its error, keeping those before it |
| Operations.RegisteredExactly | services/server-agent/src/registry.ts:63-77 | a call registers the longest beginning of its operations that is new, distinct and has phrases, each under its own id, beside what was there |
| Operations.NeverShadowed | services/server-agent/src/registry.ts:65-69 | what is registered under an id is never replaced |
| Operations.Registry.Prepare | services/server-agent/src/server.ts:93-117 | every rejection in order |
| Operations.PreparedIff | services/server-agent/src/server.ts:93-117 | a request is prepared exactly when it names an operation, its arguments are acceptable (none at all without a schema) and a dangerous operation is confirmed by its phrase; then with that operation and those arguments parsed |
| Operations.DangerIsConfirmed | services/server-agent/src/server.ts:107-114 | whatever was registered, a dangerous operation is prepared only for a request that types its non-empty phrase |
| Tuning.WithinBudgetIff | services/server-agent/src/ops/provision.ts:191-210 | buffers plus two sorts per connection stay within the budget exactly when twenty connections fit before clamping |
| Tuning.OvershootBound | services/server-agent/src/ops/provision.ts:191-210 | from a budget of 320 MB the excess is at most one connection's share, a thirty-second of the budget |
| Tuning.LargeAndSmallBudgets | services/server-agent/src/ops/provision.ts:191-210 | no excess from 4267 MB on nor between 288 and 319 MB; below 288 MB the total is always 288 MB |
| Tuning.AlwaysBounded | services/server-agent/src/ops/provision.ts:191-210 | on every machine the settings fit in 288 MB or in 33/32 of the budget |
| Tuning.TunedExactly | services/server-agent/src/ops/provision.ts:191-210 | every setting is the largest its share of the budget allows within its bounds, the connections the most that fit |
| Tuning.EightGigabytes | services/server-agent/src/ops/provision.ts:191-210 | an 8 GB machine is over its budget |
| Realtime.Authorizer.TableMeta | services/api/src/lib/realtime-authz.ts:78-107 | metadata is read from the cache while fresh and remembered otherwise, an unknown table never |
| Realtime.MetadataIsRecent | services/api/src/lib/realtime-authz.ts:76-107 | over any run, metadata acted on is what the catalogue said under the same key less than thirty seconds before |
| Realtime.RememberedThirtySeconds | services/api/src/lib/realtime-authz.ts:76-107 | a table found is not asked for again for thirty seconds, one not found each time |
| Realtime.SameCacheKeyIff | services/api/src/lib/realtime-authz.ts:79 | two cache keys agree exactly when the projects and the dotted table names do |
| Realtime.CacheKeyInjective | services/api/src/lib/realtime-authz.ts:79 | with schema names free of dots the cache key is the project, the schema and the table |
| Realtime.Authorizer.AuthorizeEvent | services/api/src/lib/realtime-authz.ts:137-238 | the keys of exactly the identities that may receive the event |
| Realtime.Deliver | services/api/src/modules/realtime.ts:78-115 | the loops send the event to the subscriptions of the specification; DeliveredWithinProject and ReceivesIff say which these are |
| Realtime.DeliveredWithinProject | services/api/src/modules/realtime.ts:78-115 | only subscriptions of the event's project that hold `schema.table` or `schema.*` (schema by default public) are sent it, and those that bypass all are |
| Realtime.DeliveredOnceEach | services/api/src/modules/realtime.ts:105-114 | a subscription is sent the event as often as it occurs, or not at all |
| Realtime.ReceivesIff | services/api/src/lib/realtime-authz.ts:137-238 | what it takes for an RLS-bound identity: which row is judged, that its key is complete and quotable, and that the probe for exactly that key under the identity's claims says yes |
| Realtime.LastRepresents | services/api/src/modules/realtime.ts:92-96 | of the subscriptions that share a key the last one represents them |
| Realtime.BareClaimsIff | services/api/src/lib/realtime-authz.ts:126-129 | without verified claims two identities present equal claims exactly when they are the same user |
| Realtime.ClaimsAre | services/api/src/lib/realtime-authz.ts:126-129 | verified claims are presented as they are, and without claims and user the role is `anon` |
| Realtime.SharedKeyIff | services/api/src/lib/realtime-authz.ts:120-124 | two identities share a key exactly when both bypass, or neither does and they are the same user |
| Realtime.GroupedRefines | services/api/src/modules/realtime.ts:89-114 | if sharing a key means sharing claims, each subscription is sent the event exactly when it may receive it by itself |
| Realtime.GroupingExactIff | services/api/src/modules/realtime.ts:89-114 | and only then: otherwise some database makes grouped delivery differ |
| Realtime.RefusedIff | services/api/src/lib/realtime-authz.ts:156-209 | exactly when no RLS-bound identity can be confirmed: no row, no connection, unknown table, unenforceable RLS, missing key, unquotable name; and everyone is exactly when RLS is off |
| Realtime.FailsClosed | services/api/src/lib/realtime-authz.ts:142-238 | a refused event reaches the bypassing subscriptions and no others |
| Realtime.FailureIsLocal | services/api/src/lib/realtime-authz.ts:216-230 | a failing probe takes away its own identity's deliveries and changes no others |
| Sessions.SessionStore.IssueSession | services/api/src/modules/auth.routes.ts:28-44 | a new live row, refused when the hash is taken |
| Sessions.SessionStore.SignIn | services/api/src/modules/auth.routes.ts:141 | a sign-in starts a session of its own |
| Sessions.SignsIn | services/api/src/modules/auth.routes.ts:28-44 | a sign-in with a new hash adds one live row that is its own origin, and with a taken one changes nothing |
| Sessions.SessionStore.Rotate | services/api/src/modules/auth.routes.ts:162-201 | the rotation, statement by statement |
| Sessions.SessionStore.SignOut | services/api/src/modules/auth.routes.ts:203-212 | the statement behind signing out |
| Sessions.SessionStore.DeleteSession | services/api/src/modules/auth.routes.ts:239-243 | the statement behind deleting a session |
| Sessions.SessionStore.ResetPassword | services/api/src/modules/auth.routes.ts:326 | a reset revokes every session of the user |
| Sessions.RunSound | services/api/src/modules/auth.routes.ts:162-326 | over any run hashes stay unique, sessions stay with their user and sign-in, and each sign-in has at most one live session |
| Sessions.OneLiveSession | services/api/src/modules/auth.routes.ts:162-201 | so from an empty table, after any run, of the sessions that go back to one sign-in at most one is live |
| Sessions.EndedIff | services/api/src/modules/auth.routes.ts:162-326 | over any run a session keeps its user, token and expiry, and is revoked exactly when some request of the run was one that ends it |
| Sessions.RotatesIff | services/api/src/modules/auth.routes.ts:168-195 | rotation succeeds exactly for a live token and a new hash, and exchanges one session for one of the same user and sign-in |
| Sessions.RefusedRotation | services/api/src/modules/auth.routes.ts:174-195 | a refused rotation changes nothing, except that a taken hash costs the presented session and a replay all of them |
| Sessions.RefreshAnswers | services/api/src/modules/auth.routes.ts:168-195 | the answer to a presented token: reused, expired, hash taken or exchanged, in that order |
| Sessions.SignOutEndsOne | services/api/src/modules/auth.routes.ts:207-209 | signing out ends the presented token's session and no other, not even one rotated from it |
| Sessions.DeletesOwn | services/api/src/modules/auth.routes.ts:241 | only the session's own user can delete it, and only that session changes |
| Sessions.RevokedForever | services/api/src/modules/auth.routes.ts:177-189 | a revoked token is answered as reused in every later state |
| Sessions.ExchangedOnce | services/api/src/modules/auth.routes.ts:162-201 | so no token is exchanged twice in a run |
| Sessions.ReuseEndsAll | services/api/src/modules/auth.routes.ts:177-189 | a replayed token, like a reset, ends every session of its user and changes no other user's |
| Sessions.ReuseStaysInFamilyIff | services/api/src/modules/auth.routes.ts:157-178 | a replay changes only sessions of the replayed token's sign-in if and only if every live session of the user goes back to it |
| Sessions.ReuseCrossesSignIns | services/api/src/modules/auth.routes.ts:157-178 | any revoked token takes every session of its user with it, whichever sign-in that goes back to |

## Left out

- User interface, dashboard pages, CLI printing and the terminal emulator.
- Processes, PTYs, systemd, Docker, nft and psql: foreign effects.
- Cryptographic primitives: HMAC, SHA-256, encryption and password hashes are parameters or absent.
- SQL text: clauses, tuples and terms are syntax trees; quoting of identifiers is only their validity check.
- Databases and Redis: tables and keys are sequences and maps, and one statement or command is one step.
- URL parsing, DNS, percent-encoding, regular expression engines and UTF-8: texts are sequences of characters.
- Lower and upper case outside ASCII.
- A JavaScript object lists integer-like keys first; query keys, record keys and schema keys are taken in written order.
- `String(value)` of filter values: the SDK's values are texts.
- `buildSelect`, and the reading of `limit`, `offset` and `count`: single expressions.
- Import of JSON files, column mapping, conflict clauses and quotas on imports.
- Floating point: latencies and clocks are reals, and `toFixed(2)` rounds half up; `0.4 * b` is exact.
- HOTP counters below zero, in the first seconds of 1970, where the original throws.
- MFA challenge tokens and the request limits around MFA routes.
- Mfa.TotpSingleUse: requests of one user come one at a time; two at once could both read the old step.
- `PoolManager.closeAll`, pool errors and missing credentials: a failed `get` never reaches its last piece.
- Signatures of equal length outside ASCII, where the comparison throws instead of rejecting.
- Socket lifecycles of the agent client and the frames themselves: any printer and parser that undo each other.
- Windows.QuotaBound: Redis answers and the limit is constant; when Redis is down the original admits every call.
- Windows.QuotaCounter.Consume: amounts are natural numbers, and the increment and expiry of one call are one step.
- AgentAuth.NoReplay: the clock does not go back and the process does not restart, since nonces are kept in memory.
- The IPv6 rules of `isBlockedV6`, and the pinning of the connection to the vetted address.
- Help text, suggestions and messages of the shell; errors are constructors.
- Which undeclared argument key an error names.
- The realtime socket handshake, its topic commands, and the LISTEN connections.
- A project database is constant while one event is decided; a failure to send a frame is not modelled.
- Expiry of sessions is checked, not deleted; access tokens, cookies and e-mail tokens are not modelled.
- Sessions.ExchangedOnce: requests come one at a time; two refreshes of one token at once can both succeed in the original.
- `effective_cache_size` and the settings that only copy the number of cores.
