# Verification model of MyIoT

MyIoT is an edge server built on the macchina.io / POCO Open Service Platform (OSP). This project models, in Dafny, the parts of it that are algorithms or state machines, and proves what they keep or compute. One file holds one component.

**Bundle resolver and lifecycle.** `BundleLoader.dfy` holds the two classes `Bundle` and `BundleLoader` with the mutual recursion resolve → resolveBundle → resolveDependency → resolve, the resolving set, the rollback of a failed state change, module providers, extension bundles, starting through dependencies, the run-level and dependency sort, and ordered stopping and unloading. What they are proved against is defined elsewhere and without reference to the search: `Resolution.dfy` has the least set of resolvable bundles, `Lifecycle.dfy` the run invariant, `StartStop.dfy` what can be started and what a safe shutdown is, `Ordering.dfy` the orders. `ResolveSteps.dfy` has the steps in between, and `Runs.dfy` draws the conclusions for all runs. `Version.dfy` and `Manifest.dfy` have versions, ranges and the parser of requirement entries; `ManifestEntries.dfy` has the texts it reads, written down without the parser.

**Query language.** `Glob.dfy` (the backtracking matcher), `QueryParser.dfy` (the precedence parser), `QueryTokens.dfy` (operators and string literals).

**Protocols between threads**, as step machines: `SocketDispatcher.dfy`, `LogStreamLifecycle.dfy`, `ServiceListener.dfy`. A step is what one thread does without the others being able to interfere; runs are arbitrary interleavings.

**Codecs and registers.** `Utf8.dfy`, `UdpStream.dfy`, `DividerRegisters.dfy`, `DividerState.dfy` and `Divider.dfy`; `Decimal.dfy` has decimal text and white space, `Options.dfy` the optional value.

**State machines with a ledger.** `Tunnel.dfy` with `Protocol.dfy` (the channel table of the port forwarder against the transcript of the web socket) and `AcquisitionPipeline.dfy` (every captured frame is published, dropped, drained or still on its way).

## Where the code differs from what one would expect

- A `Require-Module` entry without a version is never met: isInRange is asked without isEmpty, and the default range holds nothing. `Require-Bundle` without a version accepts everything (`Resolution.UnversionedModuleIsNeverResolvable`, `Versions.NoRangeIsOneSided`).
- VersionRange::isEmpty recognises only one of three kinds of ranges that hold no version (`Versions.HoldsNothing`).
- Bundles that require each other in a circle stay INSTALLED, but they do not keep others from being resolved (`Resolution.CircleIsNeverResolvable`, `Loading.BundleLoader.ResolveAllBundles`).
- Bundle::stop does not ask whether ACTIVE bundles depend on the bundle, and it is called when they do: on confirmation (platform/OSP/BundleAdmin/src/BundleInfoHandler.cpp:224-226), when a bundle is removed (platform/OSP/src/BundleRepository.cpp:363-380) and by the bundle watcher (services/BundleWatcher/src/BundleWatcherService.cpp:597-601). So an ACTIVE bundle may be left above one that is not ACTIVE, and exactly such a stop leaves one (`Runs.StoppingBelowBreaks`, `Runs.ClosedIffStoppedSafely`). BundleLoader::unloadBundle does not ask either, and exactly the unload of a bundle that a resolved one has recorded breaks the run invariant (`Runs.UnloadingBelowBreaks`, `Runs.RunInvariant`). stopAllBundles and unloadAllBundles do neither, whichever bundles are ACTIVE when they begin.
- A range with its comma left out, `[1.0.0]`, is no error and restricts nothing (`ManifestEntries.BracketedVersionIsIgnored`, `ManifestEntries.NoRangeExactly`). A `;` where a name should be, behind nothing but complete entries and white space, makes the parser loop for ever, and nothing else does (`ManifestEntries.NeverEndsExactly`).
- The query parser accepts `a &&` and `!()` and leaves a null operand behind; exactly the token lists of the grammar without gaps give a complete tree (`QueryParsing.GapsAreAccepted`, `QueryParsing.NothingIsAccepted`, `QueryParsing.CompleteExactlyWithoutGaps`).
- A socket for which poll reports an error and nothing to read is never read again, since only the readable and timeout tasks set wantRead (`SocketDispatching.ErrorAloneEndsReading`, `SocketDispatching.ReadingEnds`).
- A service listener's cache keeps an unregistered service for ever when the service is unregistered while someone is still going to cache it, or between the listener's two subscriptions; the condition is exact (`ServiceListening.SafeIffNeverStale`).
- A UDP packet carries the number of its frames in 16 bits: the encoding of more than 65535 frames does not give them back, any other does (`UdpStream.PacketIsReceived`). This is a statement about the encoding. The decoder is this project's own, since the repository has none, and a UDP datagram holds at most 65507 bytes, which is 584 frames: sending a larger packet fails before the count matters.
- Y1 to Y3 share one divider and Y4 to Y6 another: applying a divider to one output changes its group (`Dividers.AppliedReadsBack`).

## Model

| member | source | states |
|---|---|---|
| Versions.VersionOrder | platform/OSP/src/Version.cpp:162-243 | The comparison operators describe one total order on the three numbers, the designation being ignored |
| Versions.HoldsNothing | platform/OSP/src/VersionRange.cpp:89-99 | Which ranges with lower ≤ upper contain no version at all, and that isEmpty is only the first of the three cases |
| Versions.NoRangeIsOneSided | platform/OSP/src/VersionRange.cpp:23-36 | The default range is empty and contains no version; an exact version is not empty and contains itself |
| Resolution.LeastFixpoint | platform/OSP/src/BundleLoader.cpp:352-386 | The reference set of resolvable bundles contains the base, is closed under "all requirements are met", and is contained in every other such set |
| Resolution.RankSatisfied | platform/OSP/src/BundleLoader.cpp:352-386 | All requirements of a resolvable bundle are met by bundles of smaller rank |
| Resolution.CircleIsNeverResolvable | platform/OSP/src/BundleLoader.cpp:636-664 | No bundle on a circle of requirements, through bundles or module providers, is resolvable |
| Resolution.UnversionedModuleIsNeverResolvable | platform/OSP/src/BundleLoader.cpp:440-477 | A bundle with a module requirement without version is never resolvable, whatever is loaded |
| Lifecycle.ProgressKeepsInv | platform/OSP/src/Bundle.cpp:181-192 | A resolution, successful or not, keeps the run invariant: current, complete, duplicate-free records of loaded bundles, ranked by the resolution order |
| Lifecycle.LoadKeepsInv | platform/OSP/src/BundleLoader.cpp:139-174 | Loading a bundle under a new name keeps the run invariant |
| Lifecycle.PathDescends | platform/OSP/src/Bundle.cpp:346-360 | Along recorded dependencies the position in the resolution order goes down |
| Lifecycle.Acyclic | platform/OSP/src/Bundle.cpp:346-360 | The recorded dependencies of resolved bundles contain no circle |
| Lifecycle.JustifiedIsResolvable | platform/OSP/src/BundleLoader.cpp:352-386 | Bundles that were resolved one after the other, each justified by those before it, belong to the least fixpoint |
| Lifecycle.ProgressSound | platform/OSP/src/BundleLoader.cpp:237-265 | After any resolution every resolved bundle belongs to the least fixpoint over those resolved before |
| ResolveSteps.ClearIsLeast | platform/OSP/src/BundleLoader.cpp:636-664 | The bundles that are resolvable without those on the stack are the least set closed under resolving any bundle that is not on the stack |
| ResolveSteps.ClearAllBelow | platform/OSP/src/BundleLoader.cpp:636-664 | A bundle that is resolvable without those on the stack has all its requirements met by bundles that are resolvable with it on the stack as well: the circular-reference check never costs a resolvable bundle |
| ResolveSteps.ExactlyResolvable | platform/OSP/src/BundleLoader.cpp:237-265 | If every bundle was tried after the ones it needs could have been, the resolved bundles are exactly the least fixpoint |
| Loading.Bundle.Resolve | platform/OSP/src/Bundle.cpp:181-192 | Terminates; fails unless INSTALLED; on failure the state is unchanged; on success RESOLVED and joined to the bundle it extends; succeeds whenever the bundle is resolvable without those being resolved; the resolving set is as before on every exit |
| Loading.Bundle.MarkResolved | platform/OSP/src/Bundle.cpp:181-192 | Committing RESOLVED appends the bundle to the resolution order with its requirements met and recorded |
| Loading.Bundle.AddResolvedDependency | platform/OSP/src/Bundle.cpp:346-354 | Records a dependency once; nothing but this bundle's record changes |
| Loading.Bundle.AddExtensionBundle | platform/OSP/src/Bundle.cpp:318-334 | Succeeds exactly for an unsealed resolved bundle, and then adds the extension |
| Loading.Bundle.Start | platform/OSP/src/Bundle.cpp:195-227 | From RESOLVED it succeeds exactly when the bundle can be started; on failure the state is rolled back while dependencies started by then stay ACTIVE |
| Loading.Bundle.Stop | platform/OSP/src/Bundle.cpp:230-241 | Succeeds exactly for an ACTIVE bundle whose activator stops; on failure it stays ACTIVE |
| Loading.BundleLoader.ResolveBundle | platform/OSP/src/BundleLoader.cpp:352-423 | On success all requirements are met by resolved bundles and exactly recorded; on failure the bundle is INSTALLED and whatever else was resolved stays justified; the measure is the number of bundles not being resolved, then the depth of the extension chain |
| Loading.BundleLoader.ResolveDependency | platform/OSP/src/BundleLoader.cpp:625-664 | On success the dependency is loaded, accepted and resolved, and recorded with its version; it succeeds whenever that is possible without the bundles being resolved |
| Loading.BundleLoader.ResolveModules | platform/OSP/src/BundleLoader.cpp:440-477 | Fails exactly when a required module has no provider; otherwise lists for each module exactly its providers |
| Loading.BundleLoader.ResolveProviders | platform/OSP/src/BundleLoader.cpp:480-497 | On success every provider of every required module is resolved and recorded |
| Loading.BundleLoader.Extend | platform/OSP/src/BundleLoader.cpp:396-416 | The extended bundle is resolved, after its extension has left the resolving set, and gets the extension unless it is sealed |
| Loading.BundleLoader.ResolveAllBundles | platform/OSP/src/BundleLoader.cpp:237-265 | In whatever order the bundles are tried, exactly the least fixpoint over those resolved before is resolved in the end |
| StartStop.CanStartIffAllReachable | platform/OSP/src/BundleLoader.cpp:673-688 | A bundle can be started iff every bundle that starting it comes to, along recorded dependencies and no further than to ACTIVE bundles, is ACTIVE, or RESOLVED with an activator that starts |
| StartStop.CanStartIffAllDependencies | platform/OSP/src/BundleLoader.cpp:673-688 | As long as ACTIVE bundles depend on ACTIVE ones only, these are all its transitive dependencies |
| StartStop.StartsKeepsActiveClosed | platform/OSP/src/Bundle.cpp:37-70 | Starting, with any nested failure and rollback, leaves no ACTIVE bundle with a dependency that is not ACTIVE |
| StartStop.CanStartStable | platform/OSP/src/BundleLoader.cpp:500-526 | Starting other bundles, with or without success, does not change which bundles can be started |
| StartStop.StopInOrder | platform/OSP/src/BundleLoader.cpp:323-334 | In an order with dependents first, when the turn comes to a bundle no ACTIVE bundle depends on it |
| StartStop.StopKeepsClosedIffSafe | platform/OSP/src/Bundle.cpp:230-241 | After stopping a single bundle all dependencies of ACTIVE bundles are still ACTIVE iff no ACTIVE bundle depends on the stopped one |
| StartStop.UnloadKeepsInvIff | platform/OSP/src/BundleLoader.cpp:177-205 | Removing a bundle keeps the run invariant iff no loaded resolved bundle has recorded it as a dependency |
| Loading.BundleLoader.StartBundle | platform/OSP/src/BundleLoader.cpp:500-526 | Succeeds when the activator starts and all dependencies can be started; then they are ACTIVE |
| Loading.BundleLoader.StartDependencies | platform/OSP/src/BundleLoader.cpp:673-688 | All recorded dependencies are ACTIVE afterwards or the call fails; the exception for a dependency that has gone is shown to be unreachable |
| Loading.BundleLoader.StartAllBundles | platform/OSP/src/BundleLoader.cpp:280-320 | Every RESOLVED bundle without lazy start is ACTIVE in the end iff it can be started, whatever the run levels; lower run levels are tried first |
| Ordering.SomeUnblocked | platform/OSP/src/BundleLoader.cpp:903-943 | Among remaining bundles whose records are acyclic and loaded one always has all its dependencies placed: the outer loop of the sort makes progress |
| Ordering.ReversedDependentsFirst | platform/OSP/src/BundleLoader.cpp:903-943 | Reversing an order with dependencies first gives one with dependents first |
| Loading.BundleLoader.SortBundles | platform/OSP/src/BundleLoader.cpp:903-943 | Terminates; a permutation of the loaded bundles with every resolved bundle before all its dependencies, the lowest possible run level being picked at each point before the final reversal |
| Loading.BundleLoader.StopAllBundles | platform/OSP/src/BundleLoader.cpp:323-334 | Whichever bundles are ACTIVE: every single stop happens while no ACTIVE bundle depends on the stopped one; if the dependencies of ACTIVE bundles were ACTIVE before, they are in between; succeeds iff all activators of ACTIVE bundles stop, and then none is ACTIVE |
| Loading.BundleLoader.UnloadAllBundles | platform/OSP/src/BundleLoader.cpp:337-349 | Whichever bundles are ACTIVE: every single stop and unload is safe and the invariant holds in between; succeeds iff no bundle is STARTING or STOPPING and all activators of ACTIVE bundles stop, and then nothing is loaded |
| Loading.BundleLoader.LoadBundle | platform/OSP/src/BundleLoader.cpp:139-174 | Fails exactly when the name is taken; otherwise adds the bundle and nothing else changes |
| Loading.BundleLoader.UnloadBundle | platform/OSP/src/BundleLoader.cpp:177-205 | Fails exactly for a started bundle; otherwise removes it from the maps and from the resolution order, and the loader's invariant holds afterwards iff no loaded resolved bundle has recorded it |
| Runs.StepIsGoodIffSafe | platform/OSP/src/BundleLoader.cpp:177-205 | Of all steps exactly the unload of a bundle that a resolved one has recorded breaks the run invariant |
| Runs.RunInvariant | platform/OSP/src/BundleLoader.cpp:352-423 | In every run of loads, resolutions, starts, stops and unloads, up to any point, every picture satisfies the run invariant iff no bundle was unloaded that a loaded resolved one had recorded |
| Runs.UnloadingBelowBreaks | platform/OSP/src/BundleRepository.cpp:363-380 | A run ends with such an unload: the condition is not empty |
| Runs.RunsAreAcyclic | platform/OSP/src/Bundle.cpp:346-360 | As long as recorded dependencies stay loaded, no resolved bundle leads back to itself through recorded dependencies, stops of any bundle included |
| Runs.StepKeepsClosedIffSafe | platform/OSP/src/Bundle.cpp:195-241 | Of all steps exactly the stop of a bundle that an ACTIVE one depends on leaves an ACTIVE bundle above one that is not |
| Runs.ClosedIffStoppedSafely | platform/OSP/src/Bundle.cpp:195-241 | In a run up to any point, with recorded dependencies staying loaded, the dependencies of ACTIVE bundles are ACTIVE throughout iff no bundle was stopped while an ACTIVE one depended on it |
| Runs.ActiveReachesActive | platform/OSP/src/Bundle.cpp:195-241 | After such a run with safe stops only, no ACTIVE bundle reaches one that is not ACTIVE |
| Runs.StoppingBelowBreaks | platform/OSP/src/Bundle.cpp:230-241 | A run of loads, resolutions, starts and one stop ends with an ACTIVE bundle above a RESOLVED one |
| Manifests.VersionIsReadBack | platform/OSP/src/Version.cpp:99-159 | Parsing what toString prints gives back the version, designation included |
| Manifests.ParseVersion | platform/OSP/src/Version.cpp:116-159 | The digit loops read exactly one to three numbers and a designation behind the third, and refuse everything else |
| Manifests.ParseRequiredItems | platform/OSP/src/BundleManifest.cpp:135-203 | For every text: the dependencies it lists, the first error, or the endless loop |
| ManifestEntries.ParsedExactly | platform/OSP/src/BundleManifest.cpp:135-203 | A list is returned exactly for texts that are complete entries with white space behind the last, and it is the list they stand for |
| ManifestEntries.NeverEndsExactly | platform/OSP/src/BundleManifest.cpp:140-202 | The loop never ends exactly for texts that are complete entries, white space, a ';' and anything |
| ManifestEntries.ItemsAreReadBack | platform/OSP/src/BundleManifest.cpp:135-203 | For every list of names with optional exact versions or ranges, parsing the printed entry ends and returns the same list |
| ManifestEntries.NoRangeExactly | platform/OSP/src/BundleManifest.cpp:161-186 | A bracketed requirement restricts nothing exactly if no comma follows its first word, or if it is the open range from 0.0.0 to 0.0.0; and where reading goes on |
| ManifestEntries.NoCommaIsIgnored | platform/OSP/src/BundleManifest.cpp:161-186 | With no comma anywhere behind it, an opening bracket is no error and no restriction |
| ManifestEntries.BracketedVersionIsIgnored | platform/OSP/src/BundleManifest.cpp:161-186 | A last requirement `name;bundle-version=[1.0.0]` is read as `name` |
| Globs.Match | platform/OSP/src/QLExpr.cpp:369-412 | For every well-formed pattern the answer is whether the text is in the pattern's language; terminates on every pattern |
| Globs.MatchAfterStar | platform/OSP/src/QLExpr.cpp:384-390 | Behind a star the rest of the pattern is found at some position, or not at all |
| Globs.MatchSet | platform/OSP/src/QLExpr.cpp:415-454 | For a closed set the answer is membership, and the cursor ends up behind its closing bracket however early it matched |
| Globs.StarNeedsNoEmptyRest | platform/OSP/src/QLExpr.cpp:384-390 | Not trying the empty rest of a non-empty text behind a star loses no match |
| Globs.SetIsSkippable | platform/OSP/src/QLExpr.cpp:438-451 | Skipping to the closing bracket after an early match ends where reading the whole set ends |
| Globs.ParseWritten | platform/OSP/src/QLExpr.cpp:369-454 | Every list of items is the meaning of some pattern: the language definition leaves nothing out |
| QueryParsing.ParsesExactlyTheGrammar | platform/OSP/src/QLParser.cpp:47-155 | A tree is returned exactly for the spellings of the grammar, and it is the one their syntax tree stands for |
| QueryParsing.ParsesWhatIsPrinted | platform/OSP/src/QLParser.cpp:47-155 | Every expression, printed with parentheses only where needed, is parsed back to itself, ending at the end of input |
| QueryParsing.LayoutIsLeast | platform/OSP/src/QLParser.cpp:58-109 | No other way of writing an expression has fewer parentheses than the one printed |
| QueryParsing.Unambiguous | platform/OSP/src/QLParser.cpp:58-155 | No token list has two syntax trees: '!' binds before '&&' before '\|\|', both associating to the left |
| QueryParsing.CompleteExactlyWithoutGaps | platform/OSP/src/QLParser.cpp:86-155 | The parsed tree has all its operands iff the tokens follow the grammar without empty operands |
| QueryParsing.GapsAreAccepted | platform/OSP/src/QLParser.cpp:58-155 | An '&&' or '\|\|' whose left or right operand is missing is accepted, whatever stands on the other side, and leaves a null operand |
| QueryParsing.NothingIsAccepted | platform/OSP/src/QLParser.cpp:86-155 | Empty input, a lone '!', `()` and `!()` are accepted with a null operand |
| QueryParsing.QueryParser.Run | platform/OSP/src/QLParser.cpp:47-55 | Reads the whole input, or reports a syntax error |
| QueryParsing.QueryParser.ParseExpr | platform/OSP/src/QLParser.cpp:58-69 | Terminates on every token list; consumes exactly one disjunction, associating to the left |
| QueryParsing.QueryParser.ParseAndExpr | platform/OSP/src/QLParser.cpp:72-83 | Consumes exactly one conjunction |
| QueryParsing.QueryParser.ParseRelExpr | platform/OSP/src/QLParser.cpp:86-155 | Consumes at most one '!' and one operand, which may be empty |
| QueryTokens.LiteralIsItsPieces | platform/OSP/src/QLTokens.cpp:226-259 | A literal is taken exactly when well-formed pieces and a closing quote are there, and reads as their characters |
| QueryTokens.EscapedIsReadBack | platform/OSP/src/QLTokens.cpp:226-259 | Every string survives escaping, finish and asString |
| QueryTokens.StringLiteralToken.Finish | platform/OSP/src/QLTokens.cpp:226-241 | Takes the rest of the literal off the stream and no more; fails exactly for an unterminated one |
| QueryTokens.StringLiteralToken.AsString | platform/OSP/src/QLTokens.cpp:244-259 | Drops the quotes and resolves the backslashes |
| QueryTokens.FinishOperator | platform/OSP/src/QLTokens.cpp:106-141 | Takes the longest operator there is; a single '&' or '\|' is an error |
| QueryTokens.OperatorIsReadBack | platform/OSP/src/QLTokens.cpp:57-72 | Each operator of the table is read back from its spelling exactly when the next character does not make a longer one |
| Utf8.IsValidUtf8 | services/ProcessConsole/src/ProcessConsoleService.cpp:385-459 | True iff the bytes are a concatenation of encodings of Unicode scalar values, as in sections 3 and 4 of RFC 3629 |
| Utf8.DecodingIsUnique | services/ProcessConsole/src/ProcessConsoleService.cpp:385-459 | A byte string encodes at most one sequence of scalar values |
| Utf8.FormsAreChecked | services/ProcessConsole/src/ProcessConsoleService.cpp:403-448 | Lead and tail bytes of any form of two, three or four bytes are accepted iff the value they stand for needs that many, is no surrogate and is at most U+10FFFF, whatever follows them |
| SocketDispatching.TokensAreConserved | platform/WebTunnel/src/SocketDispatcher.cpp:342-391 | In each step a registration's token only moves between wantRead, the main loop, the queue and a worker, and is lost in exactly two ways |
| SocketDispatching.RunKeepsInv | platform/WebTunnel/src/SocketDispatcher.cpp:335-448 | In every interleaving, exceptions in the sweep, in poll and in commands included, wantRead plus the queued and running readable and timeout tasks of a registration are at most one |
| SocketDispatching.CallsNeverOverlap | platform/WebTunnel/src/SocketDispatcher.cpp:469-516 | No two workers are ever in a readable or timeout call of one registration |
| SocketDispatching.BusyIsNotReady | platform/WebTunnel/src/SocketDispatcher.cpp:469-516 | While a call runs, wantRead is off and no other is queued |
| SocketDispatching.NoNewTaskAfterRemoval | platform/WebTunnel/src/SocketDispatcher.cpp:526-557 | After a registration has left the map its queued tasks are what remains of those queued before |
| SocketDispatching.RemovalUnregisters | platform/WebTunnel/src/SocketDispatcher.cpp:526-557 | Executing a removal or a reset takes the registration out of the map, also if it throws afterwards |
| SocketDispatching.LostForGood | platform/WebTunnel/src/SocketDispatcher.cpp:469-516 | A registration without token stays without |
| SocketDispatching.HandedOutIffHasToken | platform/WebTunnel/src/SocketDispatcher.cpp:335-391 | During a sweep there is a way to go on in which a registered socket is handed to a worker iff it has its token |
| SocketDispatching.ErrorAloneEndsReading | platform/WebTunnel/src/SocketDispatcher.cpp:374-391 | An error event without data takes the token away |
| SocketDispatching.ReadingEnds | platform/WebTunnel/src/SocketDispatcher.cpp:374-391 | A run with one such event ends with the socket still registered and no way to go on in which it is read |
| LogStreamLifecycle.StepKeepsInv | webUI/Home/src/LogStreamRequestHandler.cpp:914-931 | The counter equals the admitted plus the transiently counted requests, in every step |
| LogStreamLifecycle.NoneAdmittedAfterCleanShutdown | webUI/Home/src/LogStreamRequestHandler.cpp:879-907 | If the final read of a shutdown is zero, no request is admitted then or later until the next startup, in every run |
| LogStreamLifecycle.OnlyLeavingUntilStartup | webUI/Home/src/LogStreamRequestHandler.cpp:874-931 | From the raising of the flag until the next startup the admitted requests only become fewer |
| LogStreamLifecycle.LastLookCounts | webUI/Home/src/LogStreamRequestHandler.cpp:900-906 | The final read sees exactly the admitted and the transiently counted requests |
| LogStreamLifecycle.ShutdownComesToAnEnd | webUI/Home/src/LogStreamRequestHandler.cpp:883-900 | Whatever the requests do, the shutdown takes a bounded number of its own steps |
| LogStreamLifecycle.OneLookIsNotEnough | webUI/Home/src/LogStreamRequestHandler.cpp:914-926 | Without the second look at the flag a run admits a request after a shutdown that saw none |
| ServiceListening.CacheIsFind | platform/OSP/src/ServiceListener.cpp:34-95 | At quiescence the cache is what find returns; each reference in it was announced once and not withdrawn, every other one withdrawn as often as announced |
| ServiceListening.StepKeepsInv | platform/OSP/src/ServiceRegistry.cpp:47-89 | Every step of registration, unregistration and init keeps the accounts of each reference |
| ServiceListening.SafeIffNeverStale | platform/OSP/src/ServiceListener.cpp:34-95 | Unregistering a service cannot leave it in the cache iff nobody is still going to cache it and, if it is cached, the listener has subscribed to unregistrations |
| ServiceListening.StaleForGood | platform/OSP/src/ServiceListener.cpp:85-95 | A stale reference is never removed |
| UdpStream.PacketIsReceived | services/JNDM123AcquisitionAgent/src/AcquisitionUdpStream.cpp:177-204 | A packet is received as exactly its frames iff there are at most 65535 of them |
| UdpStream.EncodePacket | services/JNDM123AcquisitionAgent/src/AcquisitionUdpStream.cpp:177-204 | The appended bytes are the packet of these frames, 40 + 112n of them |
| UdpStream.NumberInvertsLittleEndian | services/JNDM123AcquisitionAgent/src/AcquisitionUdpStream.cpp:29-59 | A number that fits is recovered from its little-endian bytes |
| UdpStream.Publisher.PushFrame | services/JNDM123AcquisitionAgent/src/AcquisitionUdpStream.cpp:132-149 | Attempted packets followed by the pending frames are the pushed frames in order; a packet is attempted exactly when it is full |
| UdpStream.Publisher.FlushPendingFrames | services/JNDM123AcquisitionAgent/src/AcquisitionUdpStream.cpp:157-175 | All pending frames are attempted as one packet; the counters equal the successes and failures |
| UdpStream.Publisher.SendPacket | services/JNDM123AcquisitionAgent/src/AcquisitionUdpStream.cpp:177-214 | The datagram on the wire is the packet of the frames; a refused one changes nothing |
| DividerRegisters.AgreeingWrites | services/JNDM123AcquisitionAgent/src/AcquisitionDivider.cpp:143-163 | Writes that do not disagree about a bit leave each register with its untouched bits and the bits they set |
| DividerRegisters.OrderDoesNotMatter | services/JNDM123AcquisitionAgent/src/AcquisitionDivider.cpp:252-267 | Writing the same outputs in another order, or some of them again, leaves the same registers |
| DividerRegisters.RepeatingChangesNothing | services/JNDM123AcquisitionAgent/src/AcquisitionDivider.cpp:252-267 | Doing all of it a second time changes nothing |
| DividerRegisters.UnrelatedBitsStay | services/JNDM123AcquisitionAgent/src/AcquisitionDivider.cpp:143-250 | Bits that none of the writes names stay as they were |
| DividerRegisters.OutputsAgree | services/JNDM123AcquisitionAgent/src/AcquisitionDivider.cpp:165-250 | The enable, routing and divider writes of any two outputs never disagree, unless they share a divider and are given different ones |
| DividerRegisters.DividersReadBack | services/JNDM123AcquisitionAgent/src/AcquisitionDivider.cpp:126-141 | Each output reads back the divider given to its group, and keeps its own if none was given |
| Dividers.Device.WriteMaskedRegister | services/JNDM123AcquisitionAgent/src/AcquisitionDivider.cpp:143-163 | Replaces the masked bits, also when it skips the write |
| Dividers.Device.WriteDividerRegister | services/JNDM123AcquisitionAgent/src/AcquisitionDivider.cpp:165-196 | Is the same as the masked writes of the output's divider |
| Dividers.Device.WriteOutputs | services/JNDM123AcquisitionAgent/src/AcquisitionDivider.cpp:394-401 | The device holds what the writes of all outputs leave |
| Dividers.NormalizeOutputIndices | services/JNDM123AcquisitionAgent/src/AcquisitionDividerState.cpp:245-265 | Increasing, without repetition, the same outputs; an error exactly for an empty or out-of-range selection |
| Dividers.ApplyDividers | services/JNDM123AcquisitionAgent/src/AcquisitionDivider.cpp:377-406 | Fails exactly for an invalid selection, divider or clock, without touching the device; otherwise every selected output and its group read back the divider, the others keep theirs, and the result is saved |
| Dividers.AppliedReadsBack | services/JNDM123AcquisitionAgent/src/AcquisitionDivider.cpp:126-196 | Which outputs read back the applied divider, as integers |
| Dividers.InitializeFromSaved | services/JNDM123AcquisitionAgent/src/AcquisitionDivider.cpp:301-327 | Writes exactly the saved outputs; fails exactly when there are none; the validation before each write never throws |
| Dividers.SavedDividersAreRestored | services/JNDM123AcquisitionAgent/src/AcquisitionDivider.cpp:301-327 | Status, save, load and initialise restore every non-zero divider on any device, and leave the others alone; the path comes back without white space at its ends, an invalid clock as the fallback |
| DividerState.SavedIsLoaded | services/JNDM123AcquisitionAgent/src/AcquisitionDividerState.cpp:109-238 | The saved text is loaded as the same dividers, path without white space at its ends, and clock if it is valid; a zero divider counts as not saved |
| DividerState.Load | services/JNDM123AcquisitionAgent/src/AcquisitionDividerState.cpp:109-181 | Line by line, for every file; comments and malformed or invalid lines do nothing |
| DividerState.Save | services/JNDM123AcquisitionAgent/src/AcquisitionDividerState.cpp:210-238 | Fails exactly when outputs are missing; otherwise the text has one line for each |
| Dividers.LoadedIsTrusted | services/JNDM123AcquisitionAgent/src/AcquisitionDividerState.cpp:151-168 | Whatever the file says, every divider marked as saved is valid |
| Protocol.HeaderIsReadBack | platform/WebTunnel/src/Protocol.cpp:27-61 | Header fields and payload are recovered from a frame |
| Protocol.WriteThenRead | platform/WebTunnel/src/Protocol.cpp:27-61 | readHeader inverts writeHeader and returns the same length |
| Tunnel.FrameKeepsGood | platform/WebTunnel/src/RemotePortForwarder.cpp:213-278 | Whatever frame arrives and however the sockets behave, table, registrations, data and replies agree with the transcript |
| Tunnel.MultiplexKeepsGood | platform/WebTunnel/src/RemotePortForwarder.cpp:126-174 | The same for everything that happens on a local socket |
| Tunnel.OpenRequestKeepsGood | platform/WebTunnel/src/RemotePortForwarder.cpp:341-397 | Each open request is followed at once by exactly one confirmation or fault for its channel |
| Tunnel.CloseIsConsistent | platform/WebTunnel/src/RemotePortForwarder.cpp:428-470 | Losing the web socket leaves no channel and no registration |
| Tunnel.DataKeeps | platform/WebTunnel/src/RemotePortForwarder.cpp:312-338 | A socket has been given, or has given, the concatenation of its channel's data payloads since it was opened |
| Tunnel.RemotePortForwarder.Multiplex | platform/WebTunnel/src/RemotePortForwarder.cpp:126-174 | Data goes out as one frame; end of stream and errors remove the channel and tell the peer |
| Tunnel.RemotePortForwarder.MultiplexEnds | platform/WebTunnel/src/RemotePortForwarder.cpp:177-210 | An error or a timeout of a local socket removes the channel and tells the peer |
| Tunnel.RemotePortForwarder.Demultiplex | platform/WebTunnel/src/RemotePortForwarder.cpp:213-278 | The new state for every kind of incoming frame and receive failure |
| Tunnel.RemotePortForwarder.DemultiplexTimeout | platform/WebTunnel/src/RemotePortForwarder.cpp:288-309 | Pings after the first silence, closes after the second |
| Tunnel.RemotePortForwarder.OpenChannel | platform/WebTunnel/src/RemotePortForwarder.cpp:341-397 | Opens exactly for a forwarded port, a free channel and a connection that succeeds; otherwise the fault code says why |
| Tunnel.RemotePortForwarder.ForwardData | platform/WebTunnel/src/RemotePortForwarder.cpp:312-338 | Delivers to the channel's socket, or answers with an error and removes a channel that broke |
| Tunnel.RemotePortForwarder.CloseWebSocket | platform/WebTunnel/src/RemotePortForwarder.cpp:428-477 | Unregisters the web socket and every channel, once |
| AcquisitionPipeline.FatesAddUp | services/JNDM123AcquisitionAgent/src/AcquisitionRuntime.cpp:439-455 | Captured equals published plus dropped plus drained plus queued and batched |
| AcquisitionPipeline.Discarded | services/JNDM123AcquisitionAgent/src/AcquisitionRuntime.cpp:443-449 | Dropping a batch or draining the queue keeps the account and the strictly increasing order of what is left |
| AcquisitionPipeline.UnpackedIsInjective | services/JNDM123AcquisitionAgent/src/AcquisitionRuntime.cpp:1066-1076 | The words of a frame can be recovered from its samples |
| AcquisitionPipeline.Pipeline.FlushBatch | services/JNDM123AcquisitionAgent/src/AcquisitionRuntime.cpp:439-455 | The whole batch is queued behind what is there, or counted as dropped when too many frames are pending |
| AcquisitionPipeline.Pipeline.PublishNext | services/JNDM123AcquisitionAgent/src/AcquisitionRuntime.cpp:532-591 | The oldest batch is published in order; published numbers are strictly increasing |
| AcquisitionPipeline.Pipeline.PublishFrame | services/JNDM123AcquisitionAgent/src/AcquisitionRuntime.cpp:554-591 | A frame enters the histories exactly when it is the first or the sampling interval has passed |
| AcquisitionPipeline.Pipeline.AppendHistory | services/JNDM123AcquisitionAgent/src/AcquisitionRuntime.cpp:1024-1037 | The 48 series and the time line are the last 960 entries of everything appended |
| AcquisitionPipeline.Pipeline.DrainQueue | services/JNDM123AcquisitionAgent/src/AcquisitionRuntime.cpp:908-916 | Everything queued is accounted as drained; the batch stays |

## Left out

- Dynamic loading of activators, the code cache and library installation: one fixed answer per bundle for "libraries install", "activator starts" and "activator stops".
- Iteration over std::map: bundles are visited in an arbitrary order, so the results hold for every order.
- poco_assert is taken to throw; Bugcheck.h is not part of this model.
- Bundle identifiers, contexts, properties, events, uninstallBundle, and handlers that call back into the loader.
- Threads racing on bundle states: the loader's mutex is taken as held.
- Loading.BundleLoader.ResolveAllBundles: requires an acyclic Extends-Bundle relation, given as a depth, because the recursion through extended bundles does not end otherwise.
- Loading.BundleLoader.UnloadBundle: requires a loaded bundle and no resolution under way.
- Runs.RunInvariant: what the loader does after a recorded dependency has been unloaded is not modelled, since its methods are proved from the invariant on.
- Dividers.SavedDividersAreRestored: requires a device path without line feed, because one would begin a new line of the file.
- Loading.Bundle.Resolve: says of extension sets only that the bundle just resolved has joined the one it extends.
- std::sort, whose result is only certain up to the order of the keys, is an insertion sort here.
- Evaluation of query expressions over properties, regular expressions, and the tokenizer's choice between token classes: Poco::StreamTokenizer and Properties are not part of this model.
- QueryParsing.QueryParser.Run: works on token lists, with numbers as mathematical integers and reals.
- Globs.Match: promises nothing for malformed patterns except that it ends.
- Utf8.IsValidUtf8: the function exists in the Windows build only; the conversions around it are not modelled.
- Version numbers and counters are mathematical integers: overflow of int and of 64-bit counters is not modelled.
- Manifests.ParseRequiredItems: Version::parse dereferences the end of an empty string; an empty version string is read as 0.0.0 here.
- SocketDispatching.RunKeepsInv: takes wantRead as atomic although the source does not protect it, and lets poll report any socket at any time instead of modelling PollSet and the polling flag.
- Stopping the dispatcher's threads, activity clocks, and exceptions in handlers that are not Poco exceptions.
- LogStreamLifecycle.NoneAdmittedAfterCleanShutdown: one thread starts and stops the bundle, as the activator does.
- ServiceListening.CacheIsFind: properties are fixed at registration, and event handlers do not call back; the destructor of a listener is left out.
- Tunnel.RemotePortForwarder.Demultiplex: requires frames no shorter than their header, and handles one event at a time; sendBytes is taken to send everything or to fail.
- Tunnel.RemotePortForwarder.Multiplex: is only called for a socket that is registered for its channel.
- A reply to a bad opcode reports an error for a channel that stays open; the transcript does not count it as closing the channel.
- updateProperties of the port forwarder, TLS, and the WebSocket framing itself.
- I2C failures, device probing and the JSON of the divider status; the frequency of an output is its clock over its divider, in floating point.
- DividerState.Save: a file that cannot be opened or written is not modelled.
- AcquisitionPipeline.Pipeline.PublishNext: one iteration is one step; at the grain of single instructions the queue-depth counter can drift, because enqueueing comes before counting.
- HTTP handlers, sessions, telemetry, logging texts, DDS, process launch, file watching and V8: they hand data on to libraries that are not part of this model.
