# Web Packager, modelled and proved in Dafny

Web Packager turns web pages into signed HTTP exchanges. This project models its most intricate
parts and proves what they promise: the packaging engine that walks a page and its subresources,
the error filter in front of its server, the certificate manager with its goroutines and channel,
the OCSP client and its refresh schedule, the on-disk certificate cache, the Link header printer
and parser, the path handling from request URL to file name, the Link field of an exchange, and the
HTML traversal that looks for scripts to preload.

`dafny verify dfyconfig.toml` checks everything.

## Layout

| file | subject |
|---|---|
| `Engine.dfy`, `EngineTheorems.dfy` | `task.go` as a function of its state, and what holds of whole runs |
| `PackagerHeap.dfy` | the same engine with Resource objects, a pointer cache and a mutable runner, refining the former |
| `ErrorFilter.dfy` | `filterError` and what the HTTP handler makes of a run's errors |
| `WebLinks.dfy` | which Link lines the exchanges of a run carry |
| `WebCycles.dfy` | when a run comes back to its main URL, on the graph of the web, and so what the handler serves |
| `OcspClient.dfy` | OCSP verification, the client and its next fetch time |
| `OcspCoverage.dfy` | runs of the client with its retry policy, and when the held response never expires |
| `CertProtocol.dfy`, `CertTheorems.dfy` | augmentor, manager, Stop callers and clock as one state machine, and what every reachable state satisfies |
| `DiskCache.dfy` | concurrent reads and writes of the certificate directory under a file lock |
| `HttpLink.dfy`, `LinkFacts.dfy`, `LinkRoundTrip.dfy` | the Link header: printer, parser, what their parts mean on strings, round trips |
| `LinkGrammar.dfy`, `LinkMeaning.dfy` | the grammar of the Link header as derivation trees, what a derivation means, and that the parser agrees |
| `Paths.dfy`, `PathRules.dfy`, `PathPipeline.dfy` | `path.Clean`, its rules as equations, and its users: URL rewriting, file mapping, validity URLs |
| `PreloadHeaders.dfy` | extracting preloads from a response and writing the Link field of its exchange |
| `HtmlTraversal.dfy` | skip/stop traversal of parse trees and the script preloader |

The outside world is a parameter. The web and the signer may answer differently at every call; both
Fetch calls of the certificate manager may return anything at any time; file replacements may fail
at any point. Tweaking, processing, hashing, URL parsing and resolving, PEM and DER encoding are
arbitrary functions.

## Where the promise and the code differ

Each of these comes with an input on which the property fails and the exact condition under which it
holds.

- `packager.go:44-46` promises the main exchange even if subresources fail. The engine does produce
  it, but the handler refuses to serve it when the main URL lies on a cycle of pages that are fetched
  in the run: `SelfPreloadExample`, `MutualPreloadExample`; exact condition, on the web and the cache
  before the call, in `HandlerServesExactlyOffCycles`.
- `Augmentor.Stop` can wait for ever for its lock: `StopCanDeadlock`, exact condition in
  `StopCompletesExactly`. The send of `Augmentor.Start` blocks exactly when a Stop has taken the
  channel away: `StartCanBlock`, `StartIsBounded`.
- The certificate manager crashes in exactly four situations, `CrashExact`: a Stop between the making
  of channel and killer (`CrashExample`), a manager Stop before its Start has made a killer
  (`KillTooEarlyExample`), two concurrent manager Stops (`KillTwiceExample`), and the nil of a closed
  channel reaching a cache on disk (`WritesNilExample`).
- The augmentor's two fields may hold a chain and the response for another chain, although what it
  sends never does: `FieldsMayDisagree`, exact condition in `FieldsAgreeExactly`, the exact steps at
  which the digests part and meet in `FieldsPartExactly`.
- A certificate cache read mixes two certificates after a failed replacement: `FailedWriteMixes`,
  exact condition in `ReadBackExactly`. It also does if file names collide: `NamesExact`.
- Printing a link and parsing it back loses backslashes and unprintable characters, and turns
  parameters of the URL path into parameters of the link; a URL with an angle bracket never comes
  back: `BackslashExample`, `SemicolonExample`, `BracketBreaks`, exact condition in `ListRoundTrip`.
  A quote opened in the URL swallows what is printed after it: `SpillExample`, exact condition in
  `FoundExactly`.
- The held OCSP response expires during an outage exactly when the retry policy's waits do not fit
  before its end: `ExpiryExample`, exact condition in `CoverageExact`.

## Model

| member | source | states |
|---|---|---|
| `EngineTheorems.IntegrityCoherence` | task.go:106-205 | In every run on every finite web, each allowed-alt-sxg line of each stored exchange names a URL whose final cache entry is verified and has exactly the advertised integrity: the hash of that entry's headers |
| `WebLinks.LinksComplete` | task.go:186-205 | On a web that does not change during the run, and from any consistent cache: every stored exchange is for its own URL; each target of its page that has a usable entry or a good page, and never came up as a loop, is announced with the integrity the cache ends with, and its preload line follows; there is no line for anything but the page's own preloads and targets |
| `WebLinks.RunLinks` | task.go:71-89 | One call of `run` leaves all stored exchanges complete in this sense, and delivers an exchange for a target that can be packaged unless it was a loop |
| `WebLinks.LinesFor` | exchange/response.go:95-106 | A packaged resource has its allowed-alt-sxg line, and the line of its preload comes later |
| `EngineTheorems.PreloadsAnnounced` | exchange/response.go:84-109 | When preloads ask for the URLs of their own links and non-SXG preloads are dropped, every preload line in every exchange of the run follows an allowed-alt-sxg line for its URL |
| `EngineTheorems.StoredForGood` | task.go:114-158 | Once a URL is stored or reused, the run neither fetches nor stores it again and the cache ends with that exchange |
| `EngineTheorems.ValidEntriesSurvive` | task.go:114-126 | A cache entry that verifies before the run is the same after it, and its URL is not fetched |
| `EngineTheorems.ErrorsAccounted` | task.go:67-89 | The reported errors are exactly the failed calls of `run`, in order and tagged with their URLs; exchange and integrity of the result and of every cache entry agree; no URL stays active |
| `EngineTheorems.MainResource` | task.go:106-158 | What the caller gets and which error the main call ends with: an untouched resource if the request cannot be made or sent, the cached one if usable, just the target of a redirect with one of the five codes, and otherwise the physical URL and, with an exchange for the URL, the validity URL |
| `EngineTheorems.LoopExact` | task.go:71-89 | The cyclic-reference error is raised if and only if the URL belongs to an ancestor, and then nothing but that error is recorded |
| `EngineTheorems.RunTaskNoLoop` | task.go:106-161 | A loop error never comes out of `packagerTask.run` itself, so nested loops are never blamed on the parent |
| `EngineTheorems.SubresourcesCannotFailTheirParent` | packager.go:44-48 | If the signer's verdict does not depend on the Link lines, packaging a page succeeds if and only if the page itself is fine and the signer accepts it, whatever its subresources run into |
| `EngineTheorems.PreloadsOk` | task.go:186-194 | The nested loops over subresources run to their end if and only if every request can be built, no matter how the nested runs end |
| `EngineTheorems.RunKeeps` | task.go:71-89 | One call of `run` keeps the engine invariant (coherent log, store-once, accounted errors), leaves settled entries and active URLs alone, and delivers a resource that is the settled entry of its URL or has no exchange |
| `EngineTheorems.RunForRequestKeeps` | packager.go:65-76 | A whole run from any consistent cache establishes that invariant, extends the cache without touching valid entries, and ends with the record of the main call |
| `Packaging.LinkLinesAnnounced` | exchange/response.go:95-106 | Without keepNonSXGPreloads a preload line is only written after an allowed-alt-sxg line for the same URL |
| `PackagerHeap.Resource.constructor` | resource/resource.go:65-68 | A new Resource has its request URL and nothing else |
| `PackagerHeap.Resource.SetExchange` | resource/resource.go:75-89 | Exchange and integrity change together, or not at all when the header hash fails |
| `PackagerHeap.Resource.CopyFrom` | task.go:121-121 | The requester's object takes over the whole value of the cached one |
| `PackagerHeap.Runner.Run` | task.go:71-89 | The in-place runner, with aliased Resource pointers, computes the state and resource of the value-level engine; only its argument and new objects enter the cache |
| `PackagerHeap.Runner.RunTask` | task.go:106-126 | Same refinement for cache lookup, verification and reuse |
| `PackagerHeap.Runner.Renew` | task.go:128-158 | Same refinement for fetch, redirect, physical URL, exchange and store |
| `PackagerHeap.Runner.Finish` | task.go:152-158 | The cache keeps the pointer of the finished resource and nothing else changes |
| `PackagerHeap.Runner.CreateExchange` | task.go:168-205 | Same refinement for processing, validity URL, preloads and signing |
| `PackagerHeap.Runner.RunPreloads` | task.go:186-194 | The outer loop leaves every preload's objects with the values the engine computes, although later iterations write to the same heap |
| `PackagerHeap.Runner.RunResources` | task.go:187-193 | The same for the inner loop |
| `PackagerHeap.LinkLinesOf` | exchange/response.go:95-106 | The double loop over Resource objects produces the lines specified on values |
| `PackagerHeap.RunForRequest` | packager.go:65-76 | The imperative packager returns what the value-level run returns, and its final state satisfies the invariant from which the run theorems follow |
| `ErrorFilter.FilterError` | server/handler.go:206-227 | Exactly the matching leaves of an arbitrarily nested error survive, in order: nil for none, the error itself for one, a flat multierror for more |
| `ErrorFilter.KeptExactly` | server/handler.go:206-227 | At any depth, a leaf survives if and only if it is an error of this URL or an error without a URL |
| `ErrorFilter.KeptAreLeaves` | server/handler.go:206-227 | What survives is never itself a multierror and always concerns the URL or is foreign |
| `WebCycles.LoopExactlyOnCycle` | task.go:71-89 | On a web whose pages do not change during the run, and from any cache, the run meets the main URL again if and only if that URL lies on a cycle of pages without usable cache entry, following the targets each page gets to ask for |
| `WebCycles.RunTraces` | task.go:71-205 | Every call of `run` leaves the set of fetched pages closed: whatever they ask for was fetched, had a usable entry, failed by itself, or is still being packaged |
| `WebCycles.MainOutcome` | task.go:106-158 | The main resource ends verified if and only if it had a usable cache entry, or its page is fine and the signer accepts it |
| `WebCycles.HandlerServesExactlyOffCycles` | server/handler.go:156-173 | The handler serves if and only if the main URL had a usable cache entry, or its page is fine, accepted by the signer and on no such cycle: all decided before the call |
| `WebCycles.CacheOutcome` | task.go:71-205 | On such a web with a steady signer, the usable cache entries after the run are exactly those before it and the pages, fine and accepted, that the main URL reaches through pages without usable entry |
| `WebCycles.MutualPreloadExample` | server/handler.go:156-173 | Two pages that preload each other: the first is packaged and verified, and not served |
| `ErrorFilter.MainLoops` | task.go:75-88 | In a run the main URL's own call comes last and is not a loop; every other call on it is one, and every other call is on a preloaded URL |
| `ErrorFilter.HandlerServesAcyclicMain` | packager.go:44-48 | If no page preloads the main URL, the handler serves exactly the packaged main resource, whatever fails below it |
| `ErrorFilter.SelfPreloadIsNotServed` | server/handler.go:156-173 | On every web and cache, a page that lists itself is packaged and verified and still not served |
| `ErrorFilter.SelfPreloadExample` | server/handler.go:156-173 | The one-page web on which that happens |
| `OcspClient.VerifyForRawChain` | certchain/ocsp_response.go:93-131 | No problem is reported if and only if the response is real, is for the chain and covers the time; at most one problem per check |
| `OcspClient.VerifySXGCriteria` | certchain/ocsp_response.go:142-162 | No problem if and only if the status is good and the true interval is at most seven days, in spite of saturating subtraction |
| `OcspClient.OCSPClient.Fetch` | certchain/certmanager/ocsp_client.go:98-142 | A response is returned exactly when the responder's answer is acceptable now; a failure schedules a retry by the wait drawn for the current attempt and advances the back-off; a success resets it; this is the step of the runs below |
| `OcspClient.NextRunWindow` | certchain/certmanager/ocsp_client.go:132-141 | The next fetch falls in the first half of the update period, before nextUpdate, without overflow; it is the HTTP expiry exactly when that lies strictly inside the first half |
| `OcspCoverage.OutageTiming` | certchain/certmanager/ocsp_client.go:99-128 | After any number of consecutive failures the client holds the same response, and its next fetch fires later by the sum of the latencies and of the waits that the policy, with or without jitter, drew from the current attempt on |
| `OcspCoverage.InOrder` | certchain/certmanager/futureevent/real_clock.go:21-27 | A fetch fires only after the earlier ones are done |
| `OcspCoverage.CoverageExact` | certchain/certmanager/ocsp_client.go:90-93 | For any answers, latencies and draws, no fetch completes after the held response's nextUpdate if and only if, for every outage since a response was new, fire time, latencies and waits add up to at most its nextUpdate |
| `OcspCoverage.InstantCoverageExact` | certchain/certmanager/ocsp_client.go:90-93 | With instant fetches this is: after every success, the waits drawn in each outage that follows fit before nextUpdate |
| `OcspCoverage.CoveredWhenAllSucceed` | certchain/certmanager/ocsp_client.go:90-93 | If every fetch succeeds at once the held response never expires, from any accepted first response |
| `OcspCoverage.PolicyCovers` | certchain/certmanager/ocsp_client.go:30-36 | Whatever a policy draws: if its longest first n waits, with the fetches around them, fit before each response's end, it covers every outage of at most n failures |
| `OcspCoverage.ExpiryExample` | certchain/certmanager/ocsp_client.go:90-93 | A response for one hour expires when the fetch at its half-time fails and the policy waits one hour |
| `CertProtocol.StepKeeps` | certchain/certmanager/augmentor.go:98-204 | Every step of every thread keeps the pairing, channel, lock, event, start and manager invariants |
| `CertProtocol.AugNeverCrashes` | certchain/certmanager/augmentor.go:133-191 | No augmentor step sends on a closed channel, cancels an event twice or waits on a cancelled one |
| `CertTheorems.PairingSafety` | certchain/certmanager/augmentor.go:179-191 | Under every interleaving, each value sent, received, served or handed to the cache pairs a chain with a response that was accepted for that very chain |
| `CertTheorems.PairedMeansVerified` | certchain/certmanager/ocsp_client.go:120-128 | For a certificate that names a responder this means: valid for the chain at some time and fit for signed exchanges |
| `CertTheorems.Conservation` | certchain/certmanager/augmentor.go:98-131 | Received values are a prefix of the sent ones and the rest is in the channel: no loss, duplication or reordering, at most one in flight |
| `CertTheorems.CacheConservation` | certchain/certmanager/manager.go:121-139 | Each received value has been written to the cache, or is about to be, exactly once |
| `CertTheorems.NewChainIsFetchedFor` | certchain/certmanager/augmentor.go:137-151 | After a chain with another digest the daemon never waits for events again before it has asked for an OCSP response, and it first cancels the event of the old one |
| `CertTheorems.SameChainIsKept` | certchain/certmanager/augmentor.go:172-176 | A chain with the digest it has changes nothing, and the OCSP event stays |
| `CertTheorems.AcceptedIsSent` | certchain/certmanager/augmentor.go:179-191 | Every accepted response is sent with its chain before the augmentor does anything else |
| `CertTheorems.ExitOnlyWhenKilled` | certchain/certmanager/augmentor.go:159-162 | Both daemons leave their loops only when killed |
| `CertTheorems.KilledCanExit` | certchain/certmanager/augmentor.go:159-162 | A killed daemon can leave, with both of its events cancelled |
| `CertTheorems.AugmentorProceeds` | certchain/certmanager/augmentor.go:98-191 | In every reachable state the augmentor can take a step if and only if it is not done and not waiting for a Stop, an event or room in the channel; each fetch may have any outcome |
| `CertTheorems.ManagerProceeds` | certchain/certmanager/manager.go:106-139 | The same for the manager, whose waits are for the augmentor's Start, a Stop, a value, the end of the channel or being killed; every cache write that is due can happen |
| `CertTheorems.StopsProceed` | certchain/certmanager/augmentor.go:194-204 | Stop can be called at any time, and its next step waits only for another Stop or for the reader that holds the lock |
| `CertTheorems.SilentAfterStop` | certchain/certmanager/augmentor.go:194-211 | After a Stop is through, a manager that was not at the channel takes and writes nothing more in any run |
| `CertTheorems.ManagerServesLatest` | certchain/certmanager/manager.go:106-133 | While the channel is open the running manager always has a chain, and it is the newest one received |
| `CertTheorems.StartIsBounded` | certchain/certmanager/augmentor.go:105-131 | Start makes at most three OCSP fetches and gives up exactly after the third failure; it sends at most once, and the send blocks if and only if a Stop has cleared the channel field; the daemon runs only after a value was sent |
| `CertTheorems.StartCanBlock` | certchain/certmanager/augmentor.go:114-128 | A Stop during the fetch of Start leaves Start in its send |
| `CertTheorems.EventLinearity` | certchain/certmanager/futureevent/futureevent.go:32-36 | An event is outstanding if and only if the augmentor holds it; the daemon always waits on two different ones; after exit none is left |
| `CertTheorems.RetiredForGood` | certchain/certmanager/futureevent/futureevent.go:32-36 | A consumed or cancelled event is never touched again |
| `CertTheorems.CrashExact` | certchain/certmanager/augmentor.go:193-204 | A step crashes if and only if it is a Stop reaching the augmentor's killer before Start made it, a manager Stop before its killer is made, a second close of that killer, or a write of nil to a cache that got its lock |
| `CertTheorems.NilOnlyAfterStop` | certchain/certmanager/manager.go:121-139 | Nil is handed to the cache only after a Stop has closed the channel |
| `CertTheorems.CrashExample` | certchain/certmanager/augmentor.go:98-103 | A run that crashes in the first way |
| `CertTheorems.KillTooEarlyExample` | certchain/certmanager/manager.go:147-150 | A run that crashes in the second way, before the manager has started |
| `CertTheorems.KillTwiceExample` | internal/chanutil/chanutil.go:43-52 | Two concurrent Stops of the manager crash in the third way |
| `CertTheorems.WritesNilExample` | certchain/certmanager/manager.go:121-139 | A Stop while the manager waits for a value crashes in the fourth way |
| `CertTheorems.FieldsMayDisagree` | certchain/certmanager/augmentor.go:137-151 | A chain update followed by a failed OCSP fetch leaves the two fields unpaired |
| `CertTheorems.FieldsAgreeExactly` | certchain/ocsp_response.go:106-113 | In every reachable state the fields are paired if and only if the response is the dummy of a test certificate, or a real one that passes the check of serial number and signature against the chain in the field: time and criteria were settled when it was fetched |
| `CertTheorems.DigestsDecide` | certchain/certmanager/augmentor.go:167-191 | For a real response, if none is acceptable for two digests and a digest stands for one chain, this is to say that the chain has the digest of the chain that the response was fetched for |
| `CertTheorems.FieldsPartExactly` | certchain/certmanager/augmentor.go:172-175 | Matching fields part exactly at a fetch of another digest; parted ones match again exactly at an accepted response or a fetch of the old digest |
| `CertTheorems.SameChainKept` | certchain/certmanager/augmentor.go:172-175 | Until another digest comes, the field is the very chain that the response was fetched for |
| `CertTheorems.StuckForever` | certchain/certmanager/augmentor.go:186-204 | Once a Stop waits for a send that cannot complete, no continuation lets it proceed |
| `CertTheorems.StopCompletesExactly` | certchain/certmanager/augmentor.go:186-204 | A Stop that waits for the lock, first in line or behind another, can still get it if and only if the system is not in such a state |
| `CertTheorems.StopCanDeadlock` | certchain/certmanager/manager.go:121-150 | A run that gets there with both goroutines alive |
| `DiskCache.ReadsAreAtomic` | certchain/certmanager/multicert_disk_cache.go:99-183 | Under every interleaving of calls and every pattern of failed replacements, a read returns what the directory holds after exactly the Writes that completed before it |
| `DiskCache.WriteCanComplete` | certchain/certmanager/multicert_disk_cache.go:166-208 | Whenever the lock is free a Write can run to its end with any of its replacements failing, and leaves the entry of the in-place Write in the history |
| `DiskCache.ReadCanComplete` | certchain/certmanager/multicert_disk_cache.go:99-161 | Whenever no Write holds the lock a read can run to its end and finds what is there |
| `DiskCache.HistoryHolds` | certchain/certmanager/multicert_disk_cache.go:185-208 | Each half of what a read finds is that half of the last Write that replaced its file |
| `DiskCache.LastWriteIsRead` | certchain/certmanager/multicert_disk_cache.go:94-161 | If the last Write for a digest (or the last Write at all) was complete, a read returns exactly its pair, whatever failed before; if there was none, nothing |
| `DiskCache.NamesExact` | certchain/certmanager/multicert_disk_cache.go:113-148 | This holds for all histories if and only if the digest shares no file name with the latest files, respectively these differ and the certificate one is no OCSP file name |
| `DiskCache.ServerNames` | server/from_toml.go:239-240 | With the server's names only the digest "latest" is excluded |
| `DiskCache.ReadBackExactly` | certchain/certmanager/multicert_disk_cache.go:163-183 | Any Write, also one that renews the response of an unchanged chain, is read back if and only if each half was replaced or was there already |
| `DiskCache.ReadsLastCompletedWrite` | certchain/certmanager/multicert_disk_cache.go:99-183 | The two together, for every read of every concurrent run |
| `DiskCache.FailedWriteMixes` | certchain/certmanager/multicert_disk_cache.go:178-183 | When the OCSP files are not replaced, the next read pairs the new chain with the old response |
| `DiskCache.MultiCertDiskCache.Write` | certchain/certmanager/multicert_disk_cache.go:163-208 | In place: the OCSP files are attempted even after a certificate failure, success means all four were replaced, and the directory stays that of the history of Writes |
| `DiskCache.MultiCertDiskCache.WriteCert` | certchain/certmanager/multicert_disk_cache.go:185-198 | The latest file is replaced only after the digest file, and OCSP files are untouched |
| `DiskCache.MultiCertDiskCache.WriteOcsp` | certchain/certmanager/multicert_disk_cache.go:200-208 | The same for the OCSP files |
| `DiskCache.MultiCertDiskCache.Read` | certchain/certmanager/multicert_disk_cache.go:94-133 | Whatever Writes came before, if the last one for the digest was complete the caller gets its pair, and nothing if there was none; the empty digest is an error |
| `DiskCache.MultiCertDiskCache.ReadLatest` | certchain/certmanager/multicert_disk_cache.go:135-161 | The same for the last Write at all |
| `DiskCache.StagesReplaced` | certchain/certmanager/multicert_disk_cache.go:178-208 | The interleaved machine's stages make the same replacements as the in-place Write, for every pattern of failures |
| `DiskCache.NamesApart` | certchain/certmanager/multicert_disk_cache.go:113-114 | File names identify digest and kind |
| `HttpLink.SortKeys` | resource/httplink/params.go:76-88 | The keys come out in the one order with rel first and the rest ascending |
| `HttpLink.SortedKeysUnique` | resource/httplink/params.go:80-88 | There is only one such order, so map iteration order never shows in the output |
| `HttpLink.WriteParams` | resource/httplink/params.go:75-96 | The parameters are written in that order, whatever order the map is iterated in |
| `HttpLink.LinkString` | resource/httplink/link.go:49-55 | The printed link is a function of URL and parameters alone |
| `HttpLink.LinkIsPreload` | resource/httplink/link.go:38-47 | The loop over the relation types finds exactly the preload links |
| `HttpLink.Parse` | resource/httplink/parse.go:45-84 | The loop consumes the header link by link and fails as a whole if any part fails |
| `LinkFacts.IsPreloadExact` | resource/httplink/link.go:38-47 | A link is a preload link if and only if its rel value has a maximal run of characters other than white space that is "preload" up to case |
| `LinkFacts.FieldsAreRuns` | resource/httplink/params.go:107-107 | The fields of a value are exactly its maximal runs of characters other than white space |
| `LinkFacts.NormalizeMeans` | resource/httplink/params.go:98-125 | Normalising removes upper case from as, type and crossorigin, makes an empty crossorigin anonymous, keeps the words of rel in lower case, and touches nothing else |
| `LinkFacts.PrintedOrder` | resource/httplink/params.go:80-88 | All parameters are printed, rel first and the others ascending |
| `LinkFacts.StrLessExactly` | resource/httplink/params.go:87-87 | Names ascend byte by byte, a prefix before what it begins |
| `LinkFacts.ParamTextExactly` | resource/httplink/params.go:89-131 | Only crossorigin="anonymous" is printed without a value; every other value is quoted |
| `LinkFacts.EscapeDecodes` | resource/httplink/params.go:93-93 | Quoting loses nothing: undoing the escapes gives the value back, for all of ASCII |
| `LinkFacts.DropBackslashesExactly` | resource/httplink/parse.go:74-74 | The parser removes every backslash of a quoted value and nothing else |
| `LinkGrammar.Complete` | resource/httplink/parse.go:26-41 | Every text derivable from the link-value grammar is accepted, with its URI and the right remainder |
| `LinkGrammar.Sound` | resource/httplink/parse.go:26-41 | Every accepted text has a derivation, with that URI and that remainder |
| `LinkGrammar.ScannerExact` | resource/httplink/parse.go:36-41 | The scanner matches if and only if the grammar derives a prefix, and URI and remainder do not depend on the derivation, so no backtracking choice matters |
| `LinkMeaning.ValueMeans` | resource/httplink/parse.go:53-78 | For any derivation of a link, whatever its spacing, quoting and repetitions, whose URI opens no quote that its parameters close, the second scan finds exactly the derivation's parameters, later ones winning, on top of any in the URI |
| `LinkMeaning.ParseDenotes` | resource/httplink/parse.go:43-84 | Parsing any derivable header of such links yields the links its derivation denotes, or the error of its first invalid URI |
| `LinkMeaning.ParseDerives` | resource/httplink/parse.go:43-84 | Whatever parses has a derivation with valid URIs |
| `LinkMeaning.ParseExact` | resource/httplink/parse.go:43-84 | Parsing succeeds if and only if the header is derivable with valid URIs |
| `LinkRoundTrip.NormalizeIdempotent` | resource/httplink/params.go:98-125 | Normalising a normalised value changes nothing |
| `LinkRoundTrip.QuoteScans` | resource/httplink/params.go:93-93 | Any quoted value, whatever it contains, is scanned up to exactly its closing quote |
| `LinkRoundTrip.ValueRoundTrip` | resource/httplink/parse.go:65-78 | A value survives quoting and parsing if and only if it is printable without backslashes and normalised |
| `LinkRoundTrip.FindsUri` | resource/httplink/parse.go:65-65 | For every URL and every text after it, the parameter scan treats the two separately if and only if no quote it sees in the URL is closed only by that text |
| `LinkRoundTrip.FoundExactly` | resource/httplink/parse.go:65-65 | In a printed link the scan finds the URL's parameters and then exactly the printed ones, if and only if the URL opens no quote that they close |
| `LinkRoundTrip.SpillExample` | resource/httplink/parse.go:65-65 | A URL that opens such a quote |
| `LinkRoundTrip.JoinedLinksParse` | resource/httplink/parse.go:45-84 | Any comma-joined printed list whose URLs have no angle bracket parses link for link, each with its own URL and with the parameters that the scan finds in its own text |
| `LinkRoundTrip.ParamsFound` | resource/httplink/parse.go:65-78 | These are its own parameters reparsed on top of those in its URL, if the URL opens no quote that the printed parameters close |
| `LinkRoundTrip.BracketBreaks` | resource/httplink/parse.go:31-33 | A list with a bracket in a URL never comes back |
| `LinkRoundTrip.LinkRoundTripExact` | resource/httplink/link.go:49-66 | One link comes back equal if and only if its values are plain and normalised and its URL hides no foreign parameter |
| `LinkRoundTrip.ListRoundTrip` | resource/httplink/parse.go:43-84 | A list of any length comes back equal if and only if no URL has a bracket and each link is faithful (values plain and normalised, no foreign parameter hidden in the URL), or, if its URL opens a quote that the parameters close, the scan happens to find its parameters |
| `LinkRoundTrip.PlainListRoundTrip` | resource/httplink/parse.go:43-84 | Lists of URLs without semicolons and of plain normalised values always come back |
| `LinkRoundTrip.BackslashIsLost` | resource/httplink/parse.go:73-75 | A link with a backslash in a value never comes back |
| `LinkRoundTrip.BackslashExample` | resource/httplink/parse.go:73-75 | A smallest such link |
| `LinkRoundTrip.SemicolonExample` | resource/httplink/parse.go:65-65 | A link whose URL path gives it a parameter it did not have |
| `Paths.CleanIdempotent` | internal/urlutil/urlutil.go:23-34 | Cleaning is idempotent on every string |
| `PathRules.DoubleSlash` | internal/urlutil/urlutil.go:25-34 | In any context, two slashes clean like one |
| `PathRules.DotElement` | internal/urlutil/urlutil.go:25-34 | In any context, a "." element can be left out |
| `PathRules.UpElement` | internal/urlutil/urlutil.go:25-34 | In any context, a name and the ".." after it can be left out together |
| `PathRules.UpAtEnd` | internal/urlutil/urlutil.go:25-34 | The same at the end of the path |
| `PathRules.UpAtStart` | internal/urlutil/urlutil.go:25-34 | The same at the start of a relative path |
| `PathRules.DotAtStart` | internal/urlutil/urlutil.go:25-34 | A "." at the start of a relative path can be left out |
| `PathRules.UpFromRoot` | internal/urlutil/urlutil.go:25-34 | A ".." at the root can be left out |
| `PathRules.SlashAtEnd` | internal/urlutil/urlutil.go:25-34 | A slash at the end can be left out |
| `PathRules.CleanFixes` | internal/urlutil/urlutil.go:25-34 | Paths to which none of these rules applies are left alone, and the empty path becomes "." |
| `PathRules.IsDirExactly` | internal/urlutil/urlutil.go:55-61 | A path is a directory if and only if its last element, as a string, is empty, "." or ".." |
| `Paths.CleanPathShape` | internal/urlutil/urlutil.go:23-34 | A cleaned URL path is the root, or names only (after leading parent steps if relative) with a slash exactly for directories |
| `Paths.CleanPathLaws` | internal/urlutil/urlutil.go:23-61 | Idempotent, keeps the directory verdict, never empty, keeps rootedness |
| `Paths.ServePathExact` | server/tomlconfig/verify.go:214-233 | A serve path is accepted if and only if it is rooted and clean up to one trailing slash |
| `Paths.CleanHasNoSlash` | server/handler.go:74-79 | The handler's cleaned paths end in no slash, except the root |
| `PathPipeline.URL.RewriteAll` | urlrewrite/urlrewrite.go:33-38 | A rule sequence applies its rules in order |
| `PathPipeline.PhysicalPathIsFile` | urlrewrite/default.go:17-23 | The default rules turn every request path into a rooted clean file path: the cleaned path itself, or for a directory the cleaned path of the index file in it |
| `PathPipeline.MappedFile` | resource/cache/filewrite/mapping.go:67-143 | Every physical path maps to a file below the base directory whose segments are names, so nothing escapes it |
| `PathPipeline.MappedExactly` | resource/cache/filewrite/mapping.go:67-73 | Of the rooted paths exactly the clean ones that name a file are mapped |
| `PathPipeline.MappingInjective` | resource/cache/filewrite/mapping.go:67-143 | Different physical paths are written to different files |
| `PathPipeline.PipelineTotalInjective` | cmd/webpackager/flag_packager.go:316-324 | From any two request paths: a file always exists, and it is shared if and only if the physical path is |
| `PathPipeline.ValidityInjective` | validity/append_ext.go:88-97 | A validity URL always exists, is the physical path with extension and date appended, and determines both the physical path and the date |
| `PreloadHeaders.Response.AddPreload` | exchange/response.go:71-82 | Appends unless an equal link is present, and says which |
| `PreloadHeaders.Response.ExtractPreloadHeaders` | processor/commonproc/preload.go:46-74 | Removes the Link field and adds, without duplicates, the first twenty preload links of its parsable values with resolved URLs |
| `PreloadHeaders.PreloadLinksExact` | processor/commonproc/preload.go:53-70 | The links taken are exactly those of the parsable values that have the relation type "preload" |
| `PreloadHeaders.PreloadForURL` | resource/preload/preload.go:52-64 | A preload for a URL has the relation type, the destination if one is given, and one resource at that URL |
| `PreloadHeaders.AddedAllLaws` | exchange/response.go:71-82 | Repeated adding keeps the list as a prefix, never creates equal links and loses none |
| `PreloadHeaders.ExtractedPreloads` | processor/commonproc/preload.go:40-74 | Extraction gives the first twenty links with the relation type "preload", no two equal, each with one fresh resource at its own URL; and nothing if no link has that type |
| `PreloadHeaders.GetFullHeader` | exchange/response.go:84-109 | The copied header plus one line per announced resource and preload, the response unchanged |
| `PreloadHeaders.FullHeaderComplete` | exchange/response.go:84-109 | After extraction the exchange's Link field consists of announced lines only, is absent if there are none, and no other field changes |
| `PreloadHeaders.AltTextIsLink` | resource/resource.go:91-97 | The hand-formatted allowed-alt-sxg line is what the Link printer would print |
| `PreloadHeaders.AltTextReadsBack` | resource/resource.go:91-97 | The Link parser recovers URL and integrity from it if and only if the URL hides no parameter of another name |
| `PreloadHeaders.PlainAltTextReadsBack` | resource/resource.go:91-97 | It always does from a URL without semicolon |
| `HtmlTraversal.TraverseIsFold` | processor/htmlproc/htmldoc/node.go:68-93 | For every callback with state and every tree, the recursive traversal is a fold over the pre-order list that jumps over skipped subtrees and ends at the first stop or error |
| `HtmlTraversal.FindNode` | processor/htmlproc/htmldoc/node.go:53-66 | Returns the first match in document order, or nothing if there is none |
| `HtmlTraversal.FirstWithExactly` | processor/htmlproc/htmldoc/node.go:53-66 | That is the one before which no node matches |
| `HtmlTraversal.FindAttr` | processor/htmlproc/htmldoc/node.go:31-41 | Returns the first attribute without namespace whose key matches ignoring case |
| `HtmlTraversal.VerdictExact` | processor/htmlproc/htmltask/preload_script.go:82-110 | The callback stops exactly at text with a character other than white space and at the twelve rendering elements, goes below the document and elements without a rule, fails on an unknown type and skips the rest |
| `HtmlTraversal.ScriptPreloadExact` | processor/htmlproc/htmltask/preload_script.go:114-124 | A script is preloaded if and only if it has neither async nor defer, in any case, and its first src resolves |
| `HtmlTraversal.ScriptPreloadIs` | processor/htmlproc/htmltask/preload_script.go:121-123 | The preload asks for that URL as a script |
| `HtmlTraversal.TraverseIsScan` | processor/htmlproc/htmltask/preload_script.go:80-112 | The preloader sees exactly the nodes outside skipped elements up to the first one that renders something |
| `HtmlTraversal.PreloadScripts` | processor/htmlproc/htmltask/preload_script.go:56-124 | Adds exactly the blocking resolvable scripts among those nodes, in document order without duplicates, and fails only on an unknown node type met before |

## Left out

- Engine.Run: needs the set of URLs reachable through preloads to be finite; on an endless chain of new URLs the source does not return.
- EngineTheorems.PreloadsAnnounced: assumes that a preload's resources have its link's URL, as every constructor in the repository arranges; a custom processor could build others.
- WebCycles.LoopExactlyOnCycle: assumes that a subresource asks for the same URLs whenever and by whomever it is requested during one run; on a web that changes meanwhile there is no graph to speak of.
- WebLinks.LinksComplete: assumes that a subresource has the same preloads, is fine or not, and can be requested or not, whenever and by whomever it is requested during one run, and that the signer's verdict depends on the URL alone.
- WebCycles.HandlerServesExactlyOffCycles: assumes in addition that the signer's verdict on the main page depends on its URL alone; `CacheOutcome` assumes it of all pages, and that being fine does not change during the run either.
- ErrorFilter.FilterError: requires non-empty multierrors, since the source dereferences nil on an empty one; no run produces one.
- LinkRoundTrip.ListRoundTrip: values are ASCII, parameter names lower-case tokens; URLs are strings that the URL parser returns unchanged, and one with a bracket is not what another text parses to.
- LinkMeaning.ParseDenotes: for URIs that open no quote which the link's parameters close; `FindsUri` shows that the scan treats the two separately exactly then.
- CertTheorems.DigestsDecide: assumes that no real response is acceptable for two digests and that a digest stands for one chain; `FieldsAgreeExactly` does not.
- DiskCache.HistoryHolds: for digests whose file names differ from the configured latest files.
- CertProtocol: starting again after Stop, the exact moment of a timer, and the order of cache writes against receipts. When a Stop unlocks, the readers it kept out may enter before the next Stop, as in the source, but need not.
- The augmentor and the manager are state machines on values rather than classes, because their threads interleave between any two statements; the lock calls of the disk cache are in its machine, not in its class.
- DiskCache: Read with an empty digest, which returns without unlocking.
- HTML trees are nodes with child sequences; FirstChild and NextSibling pointers are not modelled.
- HTTP, TLS, ACME, TOML and command-line handling, logging, request tweaking rules, URL matchers, validity period rules.
- Signing, X.509, SHA-256, PEM, DER and CBOR, which are parameters.
- URL parsing, reference resolution and percent-encoding, which are parameters; header field names are assumed canonical.
- Non-ASCII letter case and quoting in the Link header, and non-ASCII letter case in HTML attribute names.
- The bounded, nil and file-writing resource caches; the in-memory one is modelled.
- The HTML tasks and processors other than script preloading and preload header extraction.
- On Windows, file paths use another separator; the model is for Unix.
