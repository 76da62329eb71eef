# CrackStation: a verified model

This project models the parts of the CrackStation web server whose correctness is argued in comments
rather than visible in any one function, and proves those arguments. There are four cores and three
smaller companions.

**Text to HTML** (`HtmlEscape`, `HtmlRender`, `HtmlAtoms`, `HtmlTheorems`). The escaper turns text into
HTML in six passes over the string. The passes are modelled as written, the loops as methods over a
growing buffer and `replace` with its leftmost, non-overlapping meaning. `HtmlRender` is independent of
them: a reader for the six character references and the line tag, and a browser that collapses white
space (CSS Text Module Level 3, section 4.1, `white-space: normal`; HTML's ASCII white space, so a form
feed collapses too, and a no-break space is drawn as a space). The promise that text "displays
identically" is stated between the two, with the exact texts it holds for.

**The hit counter** (`HitTable`, `HitCounter`, `CounterHistory`, `Greedy`, `CounterResets`,
`CounterReturns`, `CounterAges`, `CounterRace`, `CounterDedupe`, `CounterKeys`, `CounterReads`, `CounterRuns`,
`CounterLate`, `CounterKeyless`). `HitCounter.PhpCount` is the service with its two tables and its key as
fields. One level up, whole runs are compared with a history that remembers every counted visit, and with a
counter that never loses its key. `CounterRace` is the same code as a state machine in which every SQL
statement and every lock operation of every request is a step of its own. `CounterRuns` has what every
interleaving keeps: its dedupe table and its judgements are those of the log of what was ever written
(`CounterDedupe`), its key is replaced in time (`CounterKeys`), and what it shows is true (`CounterReads`).

**The blocking pool** (`BlockingPool`, `PoolFairness`). The thread pool, its FIFO queue and the concurrency limit, with
both numbers as parameters. A request holds its permit until its closure ends and has one nested task at
a time; the early drop of a response, which breaks the first of these, is a step of its own so that its
effect can be stated.

**URL resolution and dispatch** (`Registry`, `Authority`, `Canonicalization`, `Dispatcher`). Alias
resolution is made total, so that a failed `expect` and an endless recursion are values. `Authority` reads
Host headers and absolute URLs by the grammar of RFC 3986, sections 3 and 3.2, `Canonicalization` adds a
client that follows redirects, and `Dispatcher` is the stack of layers. The panics of `resolve_path`, of
`redirect_301`, of `handle` and `handle_unsupported_method` that depend on registry, method, body or redirect
URL are the response `Panic`; those that are not modelled are listed under "Left out".

**Companions**: the client address behind trusted proxies (`ClientIp`), digit grouping and number parsing
(`Digits`), and the list of submitted hashes (`HashList`). `Text` holds the string operations of Rust's
standard library that all of this uses.

## Where the code and its documentation disagree

- `src/libs/phpcount.rs:41-43` says that a key always outlives the rows written under it and that rotation
  never orphans a row that is still being consulted. A row may be written just before the key expires:
  `CounterReturns.OrphanedRow` is a visit on day 59 of a key and a return on day 61.
  `CounterReturns.ReturnIsUniqueIffKeyLost` says, for every run, exactly when a returning visitor is counted
  again, and `CounterResets.LostKeysCostOneCountEach` proves the claim of lines 18-25 instead.
- Under concurrency the 30 days of a visitor can fall short by the time by which a slow request writes its row
  late, because the row carries the time read before (`src/libs/phpcount.rs:295-306`).
  `CounterRuns.TwoCountsNeedARace` bounds this, and `CounterLate.LateWriterShortensWindow` is a run in which the
  bound is met.
- `escape_text` on its own does not display every text identically. A final space, a space after a lone
  carriage return and a form feed are lost; `HtmlTheorems.LinesDisplayIdentically` gives the exact
  condition and `HtmlTheorems.FinalSpaceIsLost` a family of texts.

## Model

| member | source | states |
|---|---|---|
| HtmlEscape.ExpandTabs | src/libs/html_escape.rs:84-108 | the cursor loop, with its inner loop to the next stop, computes the column-wise expansion, for every text and positive width |
| HtmlEscape.StopsAreApart | src/libs/html_escape.rs:92-97 | between a cursor and the next stop no column is a multiple of the width, so the inner loop stops at the nearest stop |
| HtmlEscape.EscapeSpecials | src/libs/html_escape.rs:111-126 | the escaping loop replaces each of the five special characters by its reference and keeps the rest |
| HtmlEscape.HardenLeading | src/libs/html_escape.rs:67-81 | the loop hardens a space at the start and after each `\n`, and nowhere else |
| HtmlEscape.Escape | src/libs/html_escape.rs:31-61 | the six passes in order, line tags only on request |
| HtmlTheorems.TabReachesNextStop | src/libs/html_escape.rs:83-108 | a tab after any text advances the displayed column to a stop, by at least one and at most the width |
| HtmlTheorems.ExpansionKeeps | src/libs/html_escape.rs:83-108 | expansion adds only spaces and removes only tabs |
| Text.ReplaceFirstOfTwo | src/libs/html_escape.rs:50 | replacing the first of a two-character pattern acts position by position |
| HtmlAtoms.ReplaceOnAtoms | src/libs/html_escape.rs:40-50 | a replacement of blanks in escaped text never cuts into an entity of an earlier pass |
| HtmlAtoms.StepThree | src/libs/html_escape.rs:43 | the leftmost pairing of spaces hardens the second of every pair |
| HtmlAtoms.StepFour | src/libs/html_escape.rs:45-47 | hardening line starts acts on whole characters of the text |
| HtmlAtoms.StepFive | src/libs/html_escape.rs:49-50 | hardening before a line ending acts on whole characters of the text |
| HtmlAtoms.ProtectOnAtoms | src/libs/html_escape.rs:36-50 | which spaces the four middle passes together harden: every other one of a run, and those next to a line start or end |
| HtmlTheorems.EscapedTextReadsBack | src/libs/html_escape.rs:23-59 | without line tags no raw special character is left, every `&` starts one of the six entities, and reading the output gives the tab-expanded text |
| HtmlTheorems.OnlyLineTags | src/libs/html_escape.rs:23-26 | no text can put markup into the output other than the line tags, and those only on request |
| HtmlRender.DisplayKeeps | src/libs/html_escape.rs:28-31 | a browser shows a line character for character exactly when no white space of it collapses or hangs at an end |
| Text.UnifiedByReplacing | src/libs/html_escape.rs:54-56 | replacing CRLF and then CR is reading the line endings off once |
| Text.UnifiedLines | src/libs/html_escape.rs:54-57 | splitting the unified text gives the lines of a text with mixed CRLF, CR and LF endings |
| Text.LowerIsCaseBlind | src/registry/mod.rs:189-193 | lowercasing makes equal exactly the ASCII texts that differ in case alone |
| HtmlTheorems.RenderedLines | src/libs/html_escape.rs:52-57 | with line tags the browser shows the lines of the protected text |
| HtmlTheorems.LinesDisplayIdentically | src/libs/html_escape.rs:28-61 | with line tags the browser shows exactly the lines an editor would, if and only if the expanded text has no form feed, no space stranded after a lone carriage return and no unprotected final space |
| HtmlTheorems.FinalSpaceIsLost | src/cracking.rs:113-116 | a word followed by one space loses it, which is why the cell renderer adds its own step |
| HtmlTheorems.PlaintextDisplaysIdentically | src/cracking.rs:99-121 | a table cell shows the tab-expanded plaintext column for column, if and only if it holds no line ending and no form feed |
| HitTable.AtMostOneRow | dev/01-init.sql:17-29 | under the primary key a statement touches at most one row |
| HitTable.BumpCounts | src/libs/phpcount.rs:311-324 | an increment adds one to the count it names, if its row exists, and to no other |
| HitTable.BumpTotals | src/libs/phpcount.rs:201-212 | the site total grows by the rows the increment touched |
| HitCounter.IdentifiesVisitor | src/libs/phpcount.rs:234-263 | the NUL keeps page and address apart: no two pairs give one identifier |
| HitCounter.BotIffMentioned | src/libs/phpcount.rs:222-226 | a user agent is a bot's exactly when it has one of the keywords in it, anywhere and in any case |
| HitCounter.BotsLeaveNoTrace | src/libs/phpcount.rs:146-150 | a request is skipped exactly when it is a bot's, and then nothing changes |
| HitCounter.PhpCount.constructor | src/libs/phpcount.rs:55-69 | a process starts on the tables it finds with a key of its own |
| HitCounter.PhpCount.Cleanup | src/libs/phpcount.rs:401-410 | removes exactly the rows older than the cutoff |
| HitCounter.PhpCount.CreateCountsIfNotPresent | src/libs/phpcount.rs:327-357 | adds the missing ones of the page's two rows, keeping the key of the table |
| HitCounter.PhpCount.HashId | src/libs/phpcount.rs:236-265 | the identifier under the current key, replaced first if expired |
| HitCounter.PhpCount.IsUniqueHit | src/libs/phpcount.rs:276-292 | unique when the identifier is absent or its row at least 30 days old |
| HitCounter.PhpCount.LogHit | src/libs/phpcount.rs:295-309 | inserts or updates the row of the identifier |
| HitCounter.PhpCount.CountHit | src/libs/phpcount.rs:312-324 | increments the named count |
| HitCounter.PhpCount.AddHit | src/libs/phpcount.rs:141-179 | the whole request: nothing for a bot, otherwise sweep, rows, judgement, log and both increments |
| HitCounter.PhpCount.GetHitCounts | src/libs/phpcount.rs:182-220 | reads the two counts of the page and both site totals |
| HitCounter.CountedMovesCounters | src/libs/phpcount.rs:141-179 | a request moves its own page's counts and the site totals by what it was judged, and nothing else |
| CounterHistory.SameAnswer | src/libs/phpcount.rs:275-292 | the table judges a visitor unique exactly when the history has no counted visit by them under this key within 30 days |
| CounterHistory.StepRefines | src/libs/phpcount.rs:141-179 | every event keeps table and history in agreement and gets the same answer |
| CounterHistory.TableRefinesHistory | src/libs/phpcount.rs:141-179 | for every sequential run the answers are the history's, the page count is the number of visits that were not bots' and the unique count the number the history calls unique |
| CounterHistory.SweepIsInvisible | src/libs/phpcount.rs:286-291 | sweeping on every request and at any other moment changes no answer and no counter: `time < cutoff` against `time <= cutoff` |
| Greedy.Exchange | src/libs/phpcount.rs:18-25 | remembering an earlier visit counts at least as many later ones and at most one more |
| Greedy.ResetsCostAtMostOneEach | src/libs/phpcount.rs:18-25 | each reset costs a visitor at most one extra count and never loses one |
| CounterResets.AnswersAreForgetful | src/libs/phpcount.rs:236-292 | a visitor's unique visits in any run are those of a counter that forgets at each change of key |
| CounterResets.LostKeysCostOneCountEach | src/libs/phpcount.rs:18-25 | for every run of the service, the count of a visitor is at least that of a counter that keeps its key and exceeds it by at most the number of rotations and restarts |
| CounterAges.KeyInForceIsYoung | src/libs/phpcount.rs:236-253 | in every run the key a request leaves in force was made at one of the run's readings, and had not expired when it was last checked |
| CounterAges.LifetimesCostOneCountEach | src/libs/phpcount.rs:18-25 | so a visitor is counted at most once more than by a counter that keeps its key for each restart and each whole 60 days of running time |
| CounterAges.RowsAreRecent | src/libs/phpcount.rs:401-410 | a request leaves no row that was 30 days old at its sweep |
| CounterResets.ReturnIsUniqueIffKeyExpired | src/libs/phpcount.rs:39-43 | from any table, for a return that is the next event: it is counted exactly when the key has expired |
| CounterReturns.ReturnIsUniqueIffKeyLost | src/libs/phpcount.rs:39-43 | for every run, with any requests of others, sweeps and restarts in between: a visitor who returns within 30 days is counted again exactly when the key they were logged under has been lost |
| CounterReturns.OrphanedRow | src/libs/phpcount.rs:39-43 | counted on day 59 of a key and again on day 61, while the row of day 59 is still in the table |
| CounterRuns.StepKeepsInv | src/libs/phpcount.rs:141-410 | every step of every request, failures included, keeps what is known of rows, increments, counters, key, dedupe table, log and judgements |
| CounterRuns.RowsAreThere | src/libs/phpcount.rs:326-357 | in every interleaving each page and flag has at most one row, and a request past their creation finds both |
| CounterRuns.LosingInsertFails | dev/01-init.sql:22-24 | of the requests that race to insert a row the losers fail, and change and count nothing |
| CounterRuns.NoIncrementIsLost | src/libs/phpcount.rs:311-324 | in every interleaving each counter has grown by exactly the requests that did that increment |
| CounterRuns.CountersBalance | src/libs/phpcount.rs:155-178 | a page's unique count never exceeds its page count by more than the requests between their two increments, and the rest of the difference is the returning visitors |
| CounterRuns.ShownCountsAreTrue | src/libs/phpcount.rs:182-220 | a reading request finds its rows in every interleaving, and each count it shows lies between that of the page when it began and now |
| CounterRuns.RowsNeverExceedIncrements | src/libs/phpcount.rs:158-173 | rows in the dedupe table and rows swept are those of the start and those created, and no more rows are created than written, nor written than the site's unique total has grown by |
| CounterRuns.TableAgreesWithLog | src/libs/phpcount.rs:275-306 | in every interleaving, whatever was swept, the table calls a visitor unique exactly when the log has nothing for them or the last time written lies 30 days back |
| CounterRuns.ExpiredRowsGo | src/libs/phpcount.rs:359-410 | in every interleaving a request past its sweep has left no row that was 30 days old when it began, but for rows written since |
| CounterRuns.JudgedByTheLog | src/libs/phpcount.rs:141-179 | every request of every interleaving is judged as the log was at its SELECT, by the clock after it, and does its unique increment exactly when judged unique |
| CounterRuns.TwoCountsNeedARace | src/libs/phpcount.rs:158-173 | two requests of one visitor are both counted under one key only if the second's SELECT came before the first's row, or 30 days apart less what the last writer in between was late by |
| CounterLate.LateWriterShortensWindow | src/libs/phpcount.rs:295-306 | the bound is met: a row written late with an earlier time lets a visitor be counted again that much before 30 days have passed |
| CounterRuns.ReturningMeansCounted | src/libs/phpcount.rs:158-173 | the known race only overcounts: a request judged to be returning follows a counted one for the same page and address |
| CounterRuns.RotationsAreApart | src/libs/phpcount.rs:236-253 | however many threads see the key expire, two rotations are a key lifetime apart |
| CounterRuns.NoRequestIsLockedOut | src/libs/phpcount.rs:236-258 | in every interleaving, while a request is unfinished, it or the holder of the write lock can go on |
| CounterRuns.ExpiredKeysAreNotUsed | src/libs/phpcount.rs:236-265 | in every interleaving the identifier a request has from `id_hash` is of a key that had not expired when it called |
| CounterRuns.OneRotationPerExpiry | src/libs/phpcount.rs:236-253 | an expiry seen by any number of requests rotates exactly once: a rotation follows, and no second while the new key lives |
| CounterKeyless.IncrementCountsTwice | dev/01-init.sql:20-22 | with two rows for one count an increment adds one to the displayed count and two to the total |
| CounterKeyless.WithoutTheKeyCountsDiverge | dev/01-init.sql:17-24 | without the primary key two first hits leave two rows, and after the first is recorded the page displays one hit and the site two |
| BlockingPool.StepKeepsInv | src/middleware/blocking.rs:12-17 | every step keeps queue, threads, parked requests and permits consistent |
| BlockingPool.EveryArrivalIsAccountedFor | src/main.rs:285-300 | arrivals are completed, shed or in flight, and no more are in flight than the limit |
| BlockingPool.ShedIffAtTheLimit | src/main.rs:284-300 | a request is shed exactly when as many as the limit are in flight, whatever is queued, parked or foreign; otherwise it joins the queue |
| BlockingPool.StuckIffAllParked | src/main.rs:61-63 | the pool can take no step exactly when every thread waits for a nested task |
| BlockingPool.DeadlockIsPermanent | src/main.rs:61-68 | after that nothing that can still happen frees a thread or completes a request |
| BlockingPool.BelowTheLimitNothingSticks | src/main.rs:54-71 | with fewer permits than threads no reachable state is stuck, whatever other tasks are in the queue |
| BlockingPool.AtTheLimitItDeadlocks | src/main.rs:61-63 | with as many permits as threads a run parks every thread |
| BlockingPool.DeadlockIffLimitReachesThreads | src/main.rs:54-71 | the limit is a correctness bound: a deadlock is reachable if and only if it reaches the number of threads |
| BlockingPool.EarlyDropsDefeatAnyLimit | src/main.rs:65-67 | if dropped responses give their permits back while the closure runs on, no limit is safe |
| BlockingPool.PeakDemand | src/main.rs:54-59 | requests alone never ask for more than two threads per permit |
| BlockingPool.NothingWaitsForAThread | src/main.rs:58-71 | with two threads per permit every queued task finds an idle thread |
| BlockingPool.ProgressDecreasesMeasure | src/main.rs:50-71 | every step but an arrival brings the pool nearer to empty |
| BlockingPool.ProgressIsBounded | src/main.rs:50-71 | between arrivals only boundedly many steps are possible |
| BlockingPool.PoolDrains | src/main.rs:285-303 | a pool below the limit that takes no more arrivals ends empty, with every arrival completed or shed |
| PoolFairness.QueuedTaskStarts | src/main.rs:61-71 | below the limit each queued task starts after at most three steps for each task before it and two for each thread, whatever arrives behind it, and until then a step is possible |
| BlockingPool.ShippedLimitIsSafe | src/main.rs:50-71 | with 4096 threads and a quarter of that as permits no run sticks, and peak demand is half the pool |
| Registry.Build | src/registry/pages.rs:86-96 | building succeeds exactly when no two slugs agree up to case, and then holds exactly the pages under their lowercased slugs |
| Registry.ChaseIsTheRecursion | src/registry/mod.rs:271-279 | the total alias resolution gives the recursion's result or panic, and reports a loop exactly when the recursion would never return |
| Registry.AliasesEndIffRanked | src/registry/mod.rs:271-279 | every alias resolves exactly when all targets exist and aliases form no cycle |
| Registry.StripsExtension | src/registry/mod.rs:227-244 | exactly the extension written, in any case, is stripped, although `.htm` and `.html` overlap |
| Registry.NeverBreaksIff | src/registry/mod.rs:211-279 | no path makes resolution panic or loop, exactly when there is a home page and all aliases end |
| Registry.SpellingsAreAnswered | src/registry/mod.rs:211-269 | a path is found exactly when it spells a registered key: an optional slash, the name in any case, any extension; and all spellings lead to one page |
| Registry.CanonicalUrlIsCanonical | src/registry/mod.rs:136-143 | a page's own URL resolves to that page, exactly when its slug does not end in a slash |
| Registry.CanonicalIff | src/registry/mod.rs:136-143 | the canonical paths are `/` for the home page and a slash, the slug and `.htm` for every other page, and every redirect goes to one of them |
| Registry.RedirectLandsOnCanonical | src/registry/mod.rs:210-269 | canonicalization is idempotent: the target of every redirect is canonical, for the page with that URL |
| Registry.CanonicalUrlsDiffer | src/registry/mod.rs:136-143 | no two pages share a URL |
| Registry.ShippedIsWellFormed | src/registry/pages.rs:10-97 | the shipped pages have distinct slugs and form a well-formed registry |
| Registry.ShippedRegistry | src/registry/pages.rs:10-97 | there is a registry of the shipped pages, and it is well formed |
| Registry.ShippedPages | src/registry/mod.rs:282-313 | pages count hits under their slug, aliases have no counter, and only the home page takes posts |
| Registry.PublishedUrlsAreCanonical | src/registry/pages.rs:10-97 | the shipped site serves exactly its six published URLs without a redirect |
| Authority.SpellingReadsBack | src/middleware/url_canonicalization.rs:174-196 | user information, host and port put together are read back as they were |
| Authority.ReadingIsSpelled | src/middleware/url_canonicalization.rs:174-196 | whatever is read is the header spelled again, so what stands before `@` is never taken for the host |
| Authority.HostBetween | src/middleware/url_canonicalization.rs:296-330 | the host name is what stands between `@` and port, in lower case, whatever the user information |
| Authority.LiteralHost | src/middleware/url_canonicalization.rs:310-319 | an address literal is a host with its brackets, with or without a port |
| Authority.NotAHost | src/middleware/url_canonicalization.rs:340-347 | a header with white space, a slash, a question mark or a hash names no host |
| Authority.UrlReadsBack | src/middleware/url_canonicalization.rs:215-222 | scheme, authority, path and query of a built URL are read back as they were |
| Canonicalization.RedirectIsFollowed | src/middleware/url_canonicalization.rs:215-222 | a client sent to a built URL asks that host, over that scheme, for that path and query |
| Canonicalization.DevHostFacts | src/middleware/url_canonicalization.rs:61-75 | a host that bypasses the redirects carries no user information and is never a spelling of the master host |
| Canonicalization.DevHostIff | src/middleware/url_canonicalization.rs:198-201 | the redirects are bypassed for exactly the listed hosts, in any case |
| Canonicalization.ElsewhereIsSentHome | src/middleware/url_canonicalization.rs:147-159 | a request for another host, or without HTTPS, is sent to the master host over HTTPS with path and query as they were |
| Canonicalization.WrongPathIsCorrected | src/middleware/url_canonicalization.rs:161-165 | a request at the right place for a path that is not canonical is sent to the canonical one on the same host |
| Canonicalization.AtMostTwoRedirects | src/middleware/url_canonicalization.rs:113-172 | a client meets one redirect for host or scheme and one for the path, keeps its query, and ends at the master host or its dev host on a canonical or unregistered path |
| Canonicalization.UntrustedProxyLoops | src/libs/util.rs:24-36 | if the proxy is not recognised, every request to the site is redirected without end |
| Dispatcher.DispatcherAlonePanicsIff | src/registered_page_handler.rs:24-151 | which requests the layers in front must keep from the dispatcher: redirects, methods routed elsewhere, and accepted posts without a buffered body |
| Dispatcher.ForwardedIffSettled | src/middleware/url_canonicalization.rs:113-172 | exactly which requests the canonicalization layer lets through, refuses because the header names no host, and loses to the panic of `redirect_301` |
| Dispatcher.EarlyAnswersIff | src/main.rs:284-309 | for each answer given before the router, 400, 301, 413 and 503, exactly when it is given |
| Dispatcher.RouterAnswersIff | src/main.rs:267-283 | for each answer of the router, archive, static file, page, 404 and 403, exactly when it is given |
| Canonicalization.DecisionByCase | src/middleware/url_canonicalization.rs:113-172 | for any request, exactly when the layer refuses, redirects, forwards, or fails to put the redirect URL in a header |
| Dispatcher.PanicsIff | src/main.rs:267-309 | behind the layers the only panic left is a redirect whose URL no header can carry, for any well-formed registry |
| Dispatcher.NeverPanics | src/main.rs:267-309 | so no request with a valid target reaches a panic |
| Dispatcher.PostedIff | src/middleware/buffer_body.rs:63-86 | exactly which posts reach their page, and that the page gets the body as sent, of at most the limit |
| Dispatcher.OversizedIff | src/middleware/buffer_body.rs:88-100 | a body is declared too large exactly by a header that writes a number above 128 KB that fits 64 bits |
| Dispatcher.HonestLengthDecides | src/middleware/buffer_body.rs:88-100 | with a true Content-Length the limit alone decides, and too large a body is answered 413 |
| Dispatcher.HitsAreOfPagesThatRan | src/registered_page_handler.rs:113-136 | a hit is recorded exactly for the page that ran |
| Dispatcher.NotAllowedIff | src/registered_page_handler.rs:154-196 | a method is refused exactly on a registered page that does not serve it, with that page's own list |
| Dispatcher.AllowListsWhatIsServed | src/handler.rs:48-59 | the list names GET and HEAD always and POST exactly when posts are accepted |
| Dispatcher.MissesAlike | src/registered_page_handler.rs:174-187 | a path that is not registered gets the 404 page for every method, unless a file answers it |
| Dispatcher.EverySpellingIsShown | src/registered_page_handler.rs:24-151 | from any host and spelling a client that follows redirects is shown the page, and one hit is recorded |
| Dispatcher.ShippedPagesAreNotUnderFiles | src/main.rs:267-270 | no page of the shipped site is hidden by the archive service |
| Dispatcher.ShippedSpellingIsShown | src/registered_page_handler.rs:24-151 | on the shipped site every spelling of every page and alias is shown, from any host, at a published URL |
| Dispatcher.ShippedPostedIff | src/registered_page_handler.rs:84-144 | on the shipped site a POST reaches the home page and no other, exactly when host, scheme, body, admission and origin are in order |
| ClientIp.AppendAddsOne | src/libs/util.rs:70-78 | whether a proxy adds to the last line or writes its own, the chain grows by one element on the right |
| ClientIp.TrustedIff | src/libs/util.rs:6-39 | trusted are 127.0.0.1, its IPv4-mapped form and ::1, and no other peer |
| ClientIp.OnlyTheEndCounts | src/libs/util.rs:70-107 | with the one hop of this deployment only the end of the last line counts: earlier lines cannot hide it, and if it is no address the peer is used |
| ClientIp.TooShortAChain | src/libs/util.rs:80-107 | with nothing forwarded, or fewer elements than there are proxies, the answer is the peer |
| ClientIp.UnreadableLineIsSkipped | src/libs/util.rs:73-78 | a header line that is not text is as if it had not been sent |
| ClientIp.OutermostHopDecides | src/libs/util.rs:41-109 | with as many trusted hops as proxies the answer is what the outermost saw, whatever the client sent; a peer that is no proxy is the client itself |
| ClientIp.LostRecordsDecideNothing | src/libs/util.rs:70-107 | if the line the first proxy adds to is not text, the answer is what the client's own lines give as many hops from the right as records are lost |
| ClientIp.OutermostHopDecidesIff | src/libs/util.rs:41-109 | behind the proxies the answer is always what the outermost saw, if and only if the line it adds to is text |
| Digits.GroupDigits | src/libs/util.rs:372-382 | the loop from the left writes the groups of three from the right |
| Digits.GroupsAreThrees | src/libs/util.rs:372-382 | every group but the first has three digits, the first one to three, and d digits take d + (d-1)/3 characters |
| Digits.GroupedNumberReadsBack | src/libs/util.rs:372-382 | without its commas a grouped number is the number |
| Digits.ParsedAsWritten | src/middleware/buffer_body.rs:93-100 | a written number is parsed back if it fits 64 bits and refused otherwise |
| Digits.ParsedIff | src/middleware/buffer_body.rs:93-100 | what is parsed is a decimal number below 2^64, perhaps after a plus sign and zeros, and nothing else |
| HashList.HashesAreOfLines | src/pages/home.rs:85-91 | the hashes are those of the lines, for any mixture of line endings |
| HashList.SubmittedAsTyped | src/pages/home.rs:85-112 | hashes typed with stars, blanks and any line endings around them are looked up unchanged and in order, up to twenty |
| HashList.LookedUpHashesAreClean | src/pages/home.rs:85-112 | whatever is typed, nothing looked up is empty, spans lines or keeps a star at an end, and no more than twenty are |

## Left out

- Integer widths: the `int(10)` hit count, the 64-bit clock and lengths are unbounded here; only the parse of
  Content-Length has its 64-bit limit.
- Characters: paths, host names and user agents are compared as ASCII; Unicode case folding, percent decoding
  and the lossy display of invalid UTF-8 are not modelled. Strings are sequences of characters, not bytes.
- HitCounter.PhpCount.HashId: the identifier is the key's epoch with the two inputs; HMAC, key generation and
  hex encoding are not modelled, nor is a poisoned lock.
- HitCounter.PhpCount.AddHit: sequential, with one clock reading per expiry check; interleavings and failing
  statements are in `CounterRace` only, as a state machine on values.
- CounterHistory.TableRefinesHistory: for wall clock readings that never go back.
- CounterAges.LifetimesCostOneCountEach: for a monotonic clock that does not go back while a process runs.
- CounterKeyless.WithoutTheKeyCountsDiverge: the effect is shown for two first hits on an empty table.
- CounterResets.ReturnIsUniqueIffKeyExpired: for a return that is the next event; the general statement is
  `CounterReturns.ReturnIsUniqueIffKeyLost`.
- CounterReturns.ReturnIsUniqueIffKeyLost: for sequential runs with a clock that never goes back.
- BlockingPool.BelowTheLimitNothingSticks: under the two hypotheses stated above, one nested task per request
  and permits held until the closure ends. The pool is a state machine on values; Tokio's workers, keep-alive
  and wake-ups are not modelled.
- HtmlRender.DisplayKeeps: white space and the six references only; bidirectional text, line wrapping and the
  table itself are left out.
- Authority.SpellingReadsBack: authorities follow the grammar of RFC 3986. The parser of the `http` crate is not
  part of this model, and may take a few headers that the grammar does not.
- ClientIp.OutermostHopDecides: for a line of text; the other case is `ClientIp.LostRecordsDecideNothing`. The
  address parser is a parameter that must read what the proxies print.
- Dispatcher.NeverPanics: the connection address is always present (`src/main.rs:336`), header values built from
  constants are valid, and panics inside page handlers, the blocking layer and libraries are not modelled.
  Admission, the origin check and whether a file exists are inputs.
- Registry: titles, descriptions, keywords and the no-cache flag.
- `src/cracking.rs` apart from the cell renderer: the near-miss split, the result summary and the mapping of
  oracle results are short expressions over the lookup, whose index search is in another crate.
- Reading form fields, captcha verification and bypass, security headers, templates, static file serving, signal
  handling, logging and startup checks.
