# Verified model of runsc-sentry-guard

`runsc-sentry-guard` reads the logs of gVisor containers, matches their lines against signatures and runs containment
playbooks. This project models the daemon's control logic in Dafny and proves what it guarantees.

- **Worker registry** (`WorkerRegistry`, `WorkerRegistryProof`, `WorkerRegistrySafety`,
  `WorkerRegistryProgress`, `WorkerRegistryLanes`). The
  dispatch calls and worker threads as a state machine over single thread steps: taking and dropping a guard of the
  read-write lock, looking an id up, sending on a bounded channel, receiving, timing out, the last look under the write
  guard, retiring. Any number of calls and workers interleave. The machine keeps one invariant; from it follow
  loss-freedom, order, one worker per id, the ceiling, one explained outcome per call, exactly-once accounting, absence
  of deadlock and of idling (every step uses up a rank, and a machine without new calls winds down to nothing left to do),
  and refinement to one serial bounded lane per container id.
- **Line framing** (`LineSplitting`, `FileTail`, `LogTracker`, `LogRuns`, `UdsFraming`). The read loops over buffers, proved against
  "split the whole byte stream on newlines", with the length at which each deviates and an exact condition for it.
- **Socket server** (`UdsServer`, `UdsServerRuns`, `UdsConnections`). The edge-triggered accept protocol with its pool of 50 and its wrapping
  tokens: connections of root processes alone are accepted, in order, none is lost or forgotten, and each is one session over
  all its events until one of them ends, fails or overflows.
- **Engine responses** (`ChunkSize`, `HttpReader`, `ChunkedBody`, `CutResponses`, `EventStream`). Bounded line reading, decoding of the
  chunked transfer coding (section 7.1 of RFC 9112) and the event thread that maintains the container cache.
- **Limits** (`RateLimiter`, `NegativeCache`). The fixed-window limiters over call histories, with a bound that is
  reached, and the set/queue pair that remembers failed lookups, for one and for many readers.
- **From manifests to actions** (`Manifests`, `Signatures`, `Containment`, `Pipeline`, `LineEvaluation`). Merging and
  validating, compiling, deciding, dispatching and executing, as one chain against what the manifests declare; and the
  evaluation of one line with all its gates.

Code that works step by step is modelled by methods and classes with the same loops, branches and fields; each is proved
against a specification function or relation, and the lemmas are about those. The regex engine, the JSON and TOML
parsers, the clock, the container engine and the outcome of each action are parameters, so every theorem holds whatever
they answer. Time is in nanoseconds and never goes back, as `Instant` promises.

Where code and documents differ, the model follows the code. `docs/TECHNICAL_SPECIFICATION.md` caps lines at 8192 bytes
and says longer ones are skipped; the code keeps up to 65536 bytes, and its file tailer still evaluates a suffix of a
longer line.

Some expected properties fail for the code. For each the model says exactly when it holds:

- The file tailer carries no unfinished line from poll to poll (`LogTracker.ShortLineCut` shows one cut). The short lines of a
  history arrive intact if and only if no poll begins inside a line of fewer than 65536 bytes that it completes
  (`LogTracker.ShortLinesIntact`). All lines do, long ones included, if and only if every poll that completes a line begins
  at the start of one, and no poll completes a line that one of its own reads left unfinished with 65536 bytes or more, nor
  a line after such a one (`LogTracker.AllLinesIntact`, `FileTail.FlushedExactly`; `FileTail.FlushThresholdSharp` shows that
  65536 is sharp).
- A socket client whose line has 64513 bytes can be disconnected depending on how the kernel cuts its bytes
  (`UdsFraming.WhichStreamsOverflow` says for which streams, `UdsFraming.ThresholdSharp` gives the smallest).
- A chunk can make the event thread drop complete events (`EventStream.OverflowLosesEvents`). No event line is lost if
  and only if none is completed by an overflowing chunk or after one (`EventStream.NoEventLineLost`), so in particular
  while residue and chunk fit in 65536 bytes (`EventStream.CacheIsReplay`).
- Several readers can drive the negative cache past its 1000 entries (`NegativeCache.CeilingExceeded`). It stays within them
  if and only if no id failed twice among a thousand consecutive failed lookups that another one followed
  (`NegativeCache.CeilingExactly`); it exceeds them by no more than the inserts of an id already present
  (`NegativeCache.SizesBounded`), and with one reader never (`NegativeCache.OneReaderExact`).
- The 10 MiB limit adds the bytes of the next chunk to the text decoded before it. Decoding reads through well-formed
  chunks if and only if every such sum is at most 10 MiB (`ChunkedBody.DecodesExactly`); the decoded text exceeds 10 MiB if
  and only if the conversion of the last chunk outgrows the room that was left (`ChunkedBody.OnlyTheLastChunkExceeds`;
  in `ChunkedBody.LimitExceeded` it comes to 30 MiB).
- A well-formed response that the engine cuts off is retried for ever if and only if the cut is at the start, or at most
  two bytes behind the data of a chunk that fits in 10 MiB like all before it. It is taken for complete if and only if the
  chunks before the cut fit and part of the last chunk has arrived, or nothing but leading zeros of some chunk's size. Any
  other cut is an error (`CutResponses.WhereACutEnds`).

## Model

| member | source | states |
|---|---|---|
| WorkerRegistryProof.KeepsInv | src/ingestion.rs:1150-1360 | every step of every thread keeps the lock discipline, registry, call, queue and history invariants together |
| WorkerRegistryProof.Send | src/ingestion.rs:1166-1197 | a send made under either guard reaches a live receiver, so the channel is never found disconnected and the history still adds up |
| WorkerRegistrySafety.RunInv | src/ingestion.rs:1150-1360 | the invariant holds in every state of every run, from the empty registry on |
| WorkerRegistrySafety.NothingLost | src/ingestion.rs:1322-1356 | in every interleaving the accepted messages of an id are those executed, then at most one in flight, then at most 64 queued, in this order, across all workers it ever had; with no worker nothing is outstanding |
| WorkerRegistrySafety.HistoriesOnlyGrow | src/ingestion.rs:1150-1360 | later states extend the accepted and executed histories of earlier ones: nothing is undone or reordered |
| WorkerRegistrySafety.OneWorkerPerId | src/ingestion.rs:1232-1254 | registry entries are exactly the workers that can still run a pipeline; no two of them share an id, so pipelines of one id never overlap |
| WorkerRegistrySafety.CeilingHolds | src/ingestion.rs:1203-1217 | registered workers never exceed `max_workers`, and pipelines in flight never exceed registered workers |
| WorkerRegistrySafety.OneOutcome | src/ingestion.rs:1150-1292 | a call's outcome, once decided, never changes |
| WorkerRegistrySafety.OutcomesReached | src/ingestion.rs:1166-1292 | neither "broken pipe" branch is reachable, and the call that creates a worker has its message accepted |
| WorkerRegistrySafety.WhyDecided | src/ingestion.rs:1166-1217 | acceptance appends exactly that message to that id's history; "full" means the id's live worker has 64 queued; "ceiling" means the id has no worker and exactly `max_workers` ids do |
| WorkerRegistrySafety.ExactlyOnce | src/ingestion.rs:1166-1197 | an id's history holds the messages of the calls told "accepted" for it, each exactly once |
| WorkerRegistrySafety.NeverStuck | src/ingestion.rs:1150-1360 | while a call has not returned, some step that takes, uses or drops a guard is enabled, whatever new calls, timeouts and pipelines do: the guards never deadlock |
| WorkerRegistrySafety.WorkerNeverStuck | src/ingestion.rs:1306-1360 | while a worker has messages outstanding it can move itself or, waiting for the write guard, the guards can |
| WorkerRegistryProgress.EveryStepCounts | src/ingestion.rs:1150-1360 | every step but a new call uses up some of a finite rank, so no thread ever spins: in particular a worker's last look leads on |
| WorkerRegistryProgress.RunsEnd | src/ingestion.rs:1150-1360 | without new calls, no run is longer than the rank of its first state, from any state |
| WorkerRegistryProgress.WhereRunsEnd | src/ingestion.rs:1150-1360 | where nothing but a new call can happen, every call has returned, everything accepted has been executed, the registry is empty, all guards are free and every worker is gone |
| WorkerRegistryProgress.GuardsComeFree | src/ingestion.rs:1164-1354 | in any state of a run, at most three steps of each thread that holds a guard free all guards, without new calls, timeouts or pipelines |
| WorkerRegistryProgress.LastLookRetires | src/ingestion.rs:1324-1354 | a last look that finds nothing removes the worker's own entry and gives the write guard back |
| WorkerRegistryProgress.IdleWorkerRetires | src/ingestion.rs:1306-1354 | an idle worker whose timeout fires retires in five steps, its id leaves the registry and nothing else changes |
| WorkerRegistryProgress.NewIdIsAccepted | src/ingestion.rs:1203-1292 | below the ceiling, a call for an id without a worker gets one and is accepted by its own steps |
| WorkerRegistryProgress.FastPathSuffices | src/ingestion.rs:1164-1200 | a call for a registered id with fewer than 64 queued is accepted under the read guard alone |
| WorkerRegistryProgress.CeilingGivesWay | src/ingestion.rs:1203-1354 | at the ceiling, the timeout of an idle worker frees the place in which a call for another id is then accepted |
| WorkerRegistryLanes.RefinesLanes | docs/TECHNICAL_SPECIFICATION.md:180-184 | each step changes at most one id's lane, by enqueueing within 64, starting the oldest waiting message when idle, or finishing the one in flight: per-container serialization, parallel across containers |
| LineSplitting.SplitJoins | src/ingestion.rs:798-833 | splitting on newlines is undone by joining |
| LineSplitting.JoinSplits | src/ingestion.rs:798-833 | joining newline-free lines is undone by splitting, so the split is the only one |
| LineSplitting.LinesAppend | src/socket.rs:264-306 | splitting a longer stream keeps the old lines and continues from the carried-over tail |
| LineSplitting.Scan | src/ingestion.rs:796-832 | the scan loop shared by all readers finds exactly the buffer's lines and where its unfinished line starts |
| FileTail.FramesFaithfully | src/ingestion.rs:785-858 | for any sizes of reads, each line under 65536 bytes arrives intact, once, in order; each longer one yields one candidate, a suffix of it; the residue stays newline-free and under 65536 bytes |
| FileTail.FramesExactly | src/ingestion.rs:785-858 | without lines of 65536 bytes or more, framing is splitting |
| FileTail.FlushedExactly | src/ingestion.rs:833-857 | framing is splitting if and only if no line is completed that some read left unfinished with 65536 bytes or more, nor any line after such a one |
| FileTail.FlushThresholdSharp | src/ingestion.rs:835-857 | every line of exactly 65536 bytes arrives whole when read with its newline and empty when the newline comes later |
| FileTail.Poll | src/ingestion.rs:786-858 | one poll reads from its position to the end of the file, or to the first failed read, without gaps, and hands on what the specification says of the bytes read |
| FileTail.ReadOnce | src/ingestion.rs:789-857 | one turn of the loop: all indices valid, and it goes on if and only if bytes were left and the read did not fail, because more than 65536 bytes are free |
| FileTail.Compact | src/ingestion.rs:834-857 | the unfinished line moves to the front, or is flushed at 65536 bytes or more |
| LogTracker.Tracker.Visit | src/ingestion.rs:733-868 | the first run records the length; later a known inode resumes at the stored position and a new one at byte 0, reading to the end unless a read fails; the position is stored if it can be told; other paths are untouched |
| LogTracker.Tracker.Sweep | src/ingestion.rs:723-876 | a sweep visits each listed file once and forgets the paths no longer listed |
| LogTracker.PollsTile | src/ingestion.rs:860-868 | the polls of an append-only file together read the span from the first start to the last end, no byte twice, none missing |
| LogTracker.EachLineOnce | src/ingestion.rs:785-868 | wherever polls fall, each line completed over the whole history yields exactly one candidate, a suffix of it |
| LogRuns.RunDeliversAppended | src/ingestion.rs:723-876 | over any run of sweeps and from any of them on, a file that stays listed under one inode and is only appended to, opened or not, is read in adjacent polls from its start: its first-run length, byte 0 when it is new or rotated, or the stored position; each line read yields one candidate, all intact exactly under the conditions of the rows below |
| LogRuns.TailerDeliversAppended | src/ingestion.rs:741-868 | over any such run, if every poll ends on a newline, every line shorter than 65536 bytes that has been read arrives intact, once, in order |
| LogRuns.NothingLeftUnread | src/ingestion.rs:789-868 | if the last poll met no read error, everything it found behind the start has been read, and nothing while the file is shorter than that |
| LogTracker.ShortLinesIntact | src/ingestion.rs:785-868 | short lines of any history arrive intact, and long ones as a suffix, if and only if no poll begins inside a short line that it completes |
| LogTracker.ShortLineCut | src/ingestion.rs:786-787 | a history of two polls whose one line of one byte arrives empty |
| LogTracker.AllLinesIntact | src/ingestion.rs:785-868 | the candidates of any history are exactly its lines, long ones included, if and only if every poll that completes a line begins at the start of one and none is flushed: the buffer is local to a poll |
| LogTracker.BoundaryExact | src/ingestion.rs:786-787 | dropping an unfinished line before a span leaves the span's lines unchanged if and only if it was empty or the span completes no line |
| UdsFraming.ReadConnection | src/socket.rs:255-323 | the chunks in front of the first outcome that is not data are received as one session; the connection is removed if and only if they overflow it or that outcome is the end of the stream or an error, and stays if the read would block |
| UdsFraming.WhereReadingStops | src/socket.rs:255-323 | what counts as read, and as hanging up, in terms of the outcomes alone |
| UdsFraming.DeliversPrefix | src/socket.rs:263-306 | an open connection has delivered exactly the stream's lines, a closed one a prefix of them, none of 65536 bytes or more |
| UdsFraming.BufferBounded | src/socket.rs:264-269 | the buffer never exceeds 66560 bytes, not even before the overflow test |
| UdsFraming.WhichStreamsOverflow | src/socket.rs:264-269 | some reads of a stream disconnect its sender if and only if at some position the unfinished line and the next read exceed 65536 bytes |
| UdsFraming.SafeStreamsArrive | src/socket.rs:263-306 | a stream whose lines have at most 64512 bytes is delivered whole, however it is cut |
| UdsFraming.ThresholdSharp | src/socket.rs:264-269 | 64512 is sharp: one byte more can be disconnected |
| UdsServer.Server.Turn | src/socket.rs:238-400 | a turn takes peers from the front of the backlog, in order, loses none, and admits exactly those it takes; if it begins settled (an announced peer waits only behind a full pool, remembered), has a new connection or frees a slot, and no accept fails, it ends settled; if it had reason to accept and no accept fails, it ends with the pool full or nobody waiting |
| UdsServer.Server.HandleEvents | src/socket.rs:248-327 | client events change only their own connections and evaluate their lines; if no slot was freed the pool's size is unchanged |
| UdsServer.Server.AcceptPending | src/socket.rs:329-399 | the peers accepted are the first that wait, every other one goes on waiting, and each accepted one goes through admission; it ends with the pool full and the flag set, with nobody waiting, or at a failed accept |
| UdsServer.Server.NextToken | src/socket.rs:368-372 | the wrapping counter gives out the n-th token of a cycle of a million |
| UdsServerRuns.FirstComeFirstServed | src/socket.rs:329-399 | over any run of turns, those accepted and then those still waiting are all that ever connected, in the order they did |
| UdsServerRuns.ServedWhenThereIsRoom | src/socket.rs:246-399 | whoever connects before a poll is accepted at the latest in the first turn from then on that ends with room, while no accept fails |
| UdsConnections.ConnectionIsOneSession | src/socket.rs:255-387 | over any run, from the turn that admits it on and while fewer than a million tokens are given out, the lines evaluated for a connection are those of all its reads received in a row, and its buffer is what they leave |
| UdsConnections.ConnectionDeliversPrefix | src/socket.rs:255-387 | so they are a prefix of the lines of the bytes read, and all of them while the connection lasts |
| UdsConnections.LeavesWhenItEnds | src/socket.rs:255-327 | over any run a connection is in the pool if and only if none of its events since its admission ended or failed and its reads have not overflowed |
| UdsConnections.LeavesInThatTurn | src/socket.rs:255-327 | it leaves in exactly the turn in which one of these happens |
| UdsConnections.OnlyRootIsPooled | src/socket.rs:335-387 | over any run every pooled connection was accepted from a peer with uid 0, under its token, and keeps that peer's container id |
| UdsConnections.AdmissionKeepsRecent | src/socket.rs:368-387 | an admission keeps all connections less than a million tokens old if and only if the token that comes next is free |
| UdsConnections.RunRecent | src/socket.rs:368-387 | over any run, as long as the counter never comes round to a token in use, all connections stay that recent, so no admission displaces one |
| ChunkSize.SizeLineReadsBack | src/worker.rs:200-204 | the decoder recovers the digits of a size line, whatever extension follows them |
| ChunkSize.ParsesWhatIsWritten | src/worker.rs:205-206 | a text parses to a size if and only if it writes that number in hexadecimal, in either case, with leading zeros and a plus sign if it likes, and the number fits 64 bits |
| HttpReader.Reader.ReadLine | src/worker.rs:85-93 | reading a bounded line in pieces gives the stream's first line, however the pieces fall |
| HttpReader.Reader.ReadBoundedLine | src/worker.rs:85-97 | a line fails if and only if it fills the limit without a newline |
| HttpReader.Reader.ReadExact | src/worker.rs:218-224 | exactly the next bytes, or failure with all of them consumed |
| ChunkedBody.ReadChunkedBody | src/worker.rs:198-227 | the decoding loop computes the specification of the remaining bytes, with no overflow in the size test |
| ChunkedBody.DecodeResponse | src/worker.rs:194-227 | only the sum of what arrived with the headers and later matters |
| ChunkedBody.DecodesExactly | src/worker.rs:198-227 | for any data, text or not: a well-formed stream decodes to the converted chunks if and only if each chunk fits, as received, behind the text decoded before it, and fails otherwise |
| ChunkedBody.BlankLineSkipped | src/worker.rs:200-204 | any line that is blank up to a semicolon is skipped where a size is expected |
| ChunkedBody.NonsenseRefused | src/worker.rs:200-206 | any line with a byte before its semicolon that is no digit, blank or plus sign is refused |
| ChunkedBody.EndlessLineRefused | src/worker.rs:85-97 | 8192 bytes without a newline are refused, whatever follows |
| ChunkedBody.AnyTwoBytesSkipped | src/worker.rs:211-226 | whatever two bytes follow a chunk's data are skipped; a chunk too large is refused, for its own size or in sum |
| ChunkedBody.RoundTrip | src/worker.rs:198-227 | chunks of valid text, encoded as in section 7.1 of RFC 9112, decode to the body exactly if it has at most 10 MiB, and fail otherwise |
| CutResponses.WhereACutEnds | src/worker.rs:200-226 | wherever any well-formed response is cut off, within the limits or not: idle for ever, taken for complete, or an error, each if and only if the cut lies where stated above; a body taken for complete is the text of the chunks before the cut |
| ChunkedBody.OnlyTheLastChunkExceeds | src/worker.rs:211-224 | the decoded text exceeds 10 MiB if and only if the conversion of the last chunk outgrows the room it fitted in; the text before it and its own bytes never do |
| ChunkedBody.LimitExceeded | src/worker.rs:211-224 | one chunk of 10 MiB, none of it text, is accepted and comes to 30 MiB |
| EventStream.EventThread.OnChunk | src/ingestion.rs:446-485 | one chunk updates cache and residue as the specification says, which `LastEventDecides` reads off the lines |
| EventStream.EventThread.Run | src/ingestion.rs:411-486 | the event loop leaves the cache its specification computes from the bytes, and reports whether the loop ended or idles at the end of the stream |
| EventStream.CacheIsReplay | src/ingestion.rs:446-485 | while residue and chunk fit in 65536 bytes, the cache is the fold of start and die events over the lines of the whole payload |
| EventStream.LastEventDecides | src/ingestion.rs:466-481 | the last line about a container decides: a die event leaves it out of the cache, a start event in it under the name given or its id |
| EventStream.OthersLeaveAlone | src/ingestion.rs:466-481 | lines that are not about a container leave its entry, or its absence, as it is |
| EventStream.CutsDoNotMatter | src/ingestion.rs:446-485 | two ways of cutting the same payload leave the same cache |
| EventStream.NoEventLineLost | src/ingestion.rs:446-485 | the parser is handed exactly the payload's lines if and only if no line is completed by a chunk that overflows the buffer or after one; the cache is the replay of what it was handed |
| EventStream.OverflowLosesEvents | src/ingestion.rs:448-450 | without that bound the same bytes in one chunk lose an event that two chunks deliver |
| EventStream.WireToCache | src/ingestion.rs:417-486 | a whole chunked event stream, from its bytes, leaves the cache as the replay of the events it carries |
| EventStream.WireDecides | src/ingestion.rs:417-486 | so over a whole chunked event stream, from its bytes |
| EventStream.EndOfStreamIdles | src/ingestion.rs:417-430 | at the end of the stream the loop idles, keeping its cache |
| EventStream.ExtensionEndsLoop | src/ingestion.rs:417-430 | a chunk with an extension, which the other decoder reads, ends the loop |
| RateLimiter.GlobalRateLimiter.Acquire | src/limiters.rs:44-59 | the limiter follows its window, which begins anew after a second; a refusal means that it is under a second old and full, a grant is counted in it |
| RateLimiter.AtMost | src/limiters.rs:44-59 | any closed interval of any history sees at most `max_per_second` grants for each second begun and as many once more |
| RateLimiter.AtMostFloor | src/limiters.rs:44-59 | the same as `max_per_second * (floor(W) + 2)` |
| RateLimiter.BoundReached | src/limiters.rs:44-59 | for every length of interval some history reaches the first bound |
| NegativeCache.AntiDosState.Check | src/ingestion.rs:974-988 | the lookup tokens are a window limiter of ten, refilled after a second; a remembered id is refused and costs none, any other takes one, and is told none is left if and only if there is none |
| NegativeCache.AntiDosState.RecordMiss | src/ingestion.rs:998-1006 | recording evicts the oldest at a thousand entries and appends the id to set and queue |
| NegativeCache.LookupsBounded | src/ingestion.rs:974-1007 | over any run of any number of readers, an interval sees at most ten lookups of the engine for each second begun and ten more |
| NegativeCache.SizesBounded | src/ingestion.rs:974-1007 | with any interleaving of readers the set stays within the queue and both within 1000 plus the repeated inserts |
| NegativeCache.OneReaderExact | src/ingestion.rs:974-1007 | with one reader set and queue agree, without duplicates, and are exactly the last failed lookups, at most 1000 |
| NegativeCache.CeilingExactly | src/ingestion.rs:998-1006 | over any run of any number of readers, set and queue stay within 1000 entries if and only if no id failed twice among a thousand consecutive failed lookups that another one followed |
| NegativeCache.CeilingExceeded | src/ingestion.rs:998-1006 | some run does exceed it: one race between two readers lets set and queue both reach 1001 |
| Manifests.LoadAndMerge | src/config.rs:153-303 | merging succeeds if and only if all files are readable, no name collides and the whole is sound; the result is the merge, and an error names what is really wrong |
| Manifests.MergeFiles | src/config.rs:169-228 | the file loop succeeds if and only if every file is readable and no playbook, rule, whitelist or mapping target is declared twice |
| Manifests.MergeOne | src/config.rs:182-228 | one file joins if and only if none of its names collides, with itself or with earlier files |
| Manifests.Validate | src/config.rs:230-296 | no error if and only if there is a rule, every playbook can act with valid timeouts, and every reference resolves |
| Manifests.SoundExactly | src/config.rs:230-296 | a manifest is sound if and only if nothing that any validation error claims is true of it |
| Manifests.CollisionFreeMeans | src/config.rs:182-228 | no collision means: no two files share a playbook or a mapping target, and no rule or whitelist name occurs twice in all |
| Manifests.MergedTogether | src/config.rs:182-228 | merging some files and then others is merging them all, rules and whitelists in the order of the files |
| Manifests.PlaybookSurvives | src/config.rs:182-192 | every declared playbook is in the merge as declared |
| Manifests.MappingSurvives | src/config.rs:217-228 | every declared mapping is in the merge as declared |
| Manifests.OrderDoesNotMatter | src/config.rs:153-303 | permuting the files changes neither acceptance nor the merged maps, and of rules and whitelists only the order |
| Signatures.CompileManifestRules | src/ingestion.rs:73-120 | patterns and metadata stay aligned index by index, whitelists before rules |
| Signatures.NoPatternDropped | src/ingestion.rs:92-105 | every pattern of a rule whose playbook is declared is compiled with that playbook's actions |
| Signatures.NoRuleBeforeWhitelist | src/ingestion.rs:79-105 | among ascending hits no rule comes before a whitelist, so none is collected when a whitelist ends the loop |
| Signatures.HitsAscend | src/ingestion.rs:899-902 | the hits are exactly the matching patterns, ascending |
| Signatures.Evaluate | src/ingestion.rs:1038-1108 | the loop with early exit gives the declarative verdict: suppressed if any hit is a mapped whitelist, else all mapped rule hits in order |
| Signatures.EvaluateOffline | src/ingestion.rs:190-267 | the offline scan is bypassed exactly if the live verdict for the mapped name, or else the scraped id, is suppressed; otherwise it lists name and pattern of each live hit, in order |
| Signatures.CheckMapped | src/ingestion.rs:1050-1066 | a signature counts if and only if the container's own or the global mapping names it among its whitelists, for a whitelist, or its rules, for a rule |
| Containment.LoopDecidesDeclared | src/ingestion.rs:1038-1108 | compiled patterns, hits and loop together decide what the manifests declare: whitelists exempt, else active rules respond per matching pattern in order |
| Containment.VerdictByLists | src/config.rs:129-137 | a matching whitelist in the container's own or the global whitelist list suppresses, and nothing else does; otherwise exactly the matching rules in one of the two rule lists respond, with the actions of their playbooks |
| Containment.Process | src/ingestion.rs:1038-1147 | manifest files in, messages out: accepted exactly when the files are, and then a message is sent if and only if no listed whitelist matches and it carries out the playbook that the manifests declare for a listed matching rule, validated first for a file line |
| Containment.Dispatch | src/ingestion.rs:1110-1147 | one message for each response, in order, with its rule, its final actions, a trigger naming pattern and line, and its try actions, with a validation in front if and only if the line is from a file and they do not begin with one |
| Containment.ResponsesComplete | src/ingestion.rs:92-105 | a response is declared if and only if an active rule has that matching pattern, with its playbook's actions |
| Containment.MessagesDeclared | src/ingestion.rs:1110-1147 | the messages for a line are exactly those that carry out the playbook of a listed matching rule, none if a listed whitelist matches |
| Containment.FileTracesValidateFirst | src/ingestion.rs:1127-1130 | every pipeline started by a file line begins with ValidateState and runs no other try action if that fails |
| Containment.FileOrderDoesNotMatter | src/config.rs:169-228 | in whatever order manifests are listed, the same lines are exempt and the same responses follow |
| LineEvaluation.LineEvaluator.Evaluate | src/ingestion.rs:882-1147 | one line: ignored, throttled, unidentified, refused as a known miss, looked up in vain, or judged; each exactly in its case and with the new state of limiter, tokens, caches |
| LineEvaluation.LineEvaluator.FindName | src/ingestion.rs:953-972 | the name of the id itself, else of some known id of which it is a prefix; none if and only if there is no such id |
| LineEvaluation.LoadIsBounded | src/ingestion.rs:904-988 | over any run of lines, whatever the event thread does to the container cache in between, an interval sees no more evaluated lines and no more engine lookups than the two limiters allow |
| LineEvaluation.NoRepeatedLookup | src/ingestion.rs:980-1006 | over any such run the engine is never asked about an id that is among the last thousand it was asked about in vain |
| LineEvaluation.JudgedAsDeclared | src/ingestion.rs:921-1147 | a judged line goes by the id of its file or socket, else a file line by the captured one; its target is that id, or `UNSYNCED_ID_` and its first twelve characters when judged under the id itself; its messages are those declared for the name used; a name the engine tells is remembered |
| LineEvaluation.WhichLinesCount | src/ingestion.rs:899-951 | a line is ignored if and only if no pattern matches, throttled if and only if the second's budget is spent, unidentified if and only if its source gives no id and it is no file line with a captured one |
| LineEvaluation.WhatAnIdLeadsTo | src/ingestion.rs:953-1029 | an id is refused if and only if it is unknown and a remembered miss; looked up if and only if it is neither and a token is left; judged under itself if and only if none is; under the cached name if and only if it is known |
| Pipeline.ExecutePipeline | src/worker.rs:862-985 | the trace is the try actions to the first failure, then fallbacks only after one, to the first successful SIGKILL, SIGSTOP or restart, never stopped by a failing fallback |
| Pipeline.TraceRunsPlaybook | src/worker.rs:862-985 | either every try action succeeds and nothing else runs, or the first failure ends them and the final actions all run up to a restart, SIGKILL or SIGSTOP that succeeds, and none after it |
| Pipeline.TraceDetermined | src/worker.rs:862-985 | the outcomes of the actions leave only one such trace |
| Pipeline.Blacklist | src/worker.rs:705-751 | the firewall loop drops the container's addresses outside the whitelist in order, until a change fails, and fails without addresses |
| Pipeline.OnlyUnsafeDropped | src/worker.rs:298-300 | the addresses it may drop are exactly those of the container that no whitelisted network contains |
| Pipeline.UnsafeParts | src/worker.rs:705-751 | addresses are dropped in the order in which the container lists them |

## Left out

- Regex engines, JSON and TOML parsing, HTTP header parsing: parameters, or not part of this model; so is the exit when
  the pattern set does not compile.
- Thread panics inside a pipeline: pipelines are assumed to return. A panic would leave a registry entry with a dead
  receiver.
- The 30 seconds of `recv_timeout`: a timeout may fire at any moment here, which covers every real one.
- Sockets, file opening, ownership checks, `/proc`, subprocesses, webhooks, scripts, logging, systemd, hot reload and
  shutdown flags: only the outcome each returns, where it matters. A loop interrupted by a shutdown is not modelled.
- Scraping and caching the container id of a log file: a line carries the id its file or socket gives it.
- `should_warn`: it decides only whether a warning is logged.
- Content-length bodies and bodies read to the end of the stream: each is one bounded read, with nothing to decode.
- The five-second read timeout of engine requests: an engine that keeps the connection open without sending is not modelled,
  only one that closes it.
- Lossy conversion and Unicode trimming: line contents are bytes; the conversion of chunk data is a parameter; in chunk
  size lines a byte of 128 or more is neither white space nor a digit.
- The agreement of the container cache with the engine: the snapshot is taken before the event subscription is sent.
- Accept errors other than "would block" are modelled as failures; a peer that was announced before one can wait until the
  next connection or freed slot.
- UdsConnections.ConnectionIsOneSession: follows a connection until a million tokens have been given out since its own,
  because the counter wraps.
- UdsServer.Server.Turn: the pool maps tokens to values, so the closing of a socket and its deregistration are not modelled.
- LogRuns.RunDeliversAppended: follows polls that can tell their position; where one cannot, `LogRuns.StartsAgain` says
  that the next poll reads its bytes again.
- FileTail.Poll: the file's content during one poll is what it holds at its end; a file rewritten in place meanwhile is not modelled.
- LogRuns.TailerDeliversAppended: assumes that polls end on a newline; `LogTracker.ShortLinesIntact` says what holds without that.
- ChunkedBody.ReadChunkedBody: the endless retry at the end of a stream is reported as a stall.
- EventStream.EventThread.Run: at the end of the stream the model reports that the code retries until it is shut down;
  reconnecting is not modelled, nor is the buffer the code allocates for a chunk before reading it, whose failure for a
  huge size line would abort the daemon.
- Ids are sequences of characters: the fallback name is cut after the twelfth, as the code does with ids in ASCII.
- LineEvaluation.LineEvaluator.Evaluate: one reader thread; two readers are covered separately in `NegativeCache`.
- Container start-up, command line, non-Linux variants and the container-engine requests of each action.
