# Verified models of WeKnora's stream readers, preprocessing pool and crash protocols

The project models the parts of WeKnora whose correctness depends on runs rather than on single
calls, and proves properties of every run.

* **Event streams** (`Sse*.dfy`, `PythonSse*.dfy`, `Utf8.dfy`). The Go line splitter works online:
  it recognises CRLF, LF and bare CR whatever the network reads cut, and remembers only whether to
  swallow an LF. `SseLines` gives the one-shot grammar (`Lines`, section 9.2.5 of the WHATWG HTML
  Living Standard), `SseScanner` the `bufio.Scanner` protocol over a reader that delivers arbitrary
  pieces, `SseFrames` the blocks, payloads and the interpretation of section 9.2.6, `SseReaders` the
  three Go loops and `PythonSse` the Python consumer. `SseTheorems` and `PythonSseTheorems` hold
  what follows for whole streams.
* **Preprocessing pool** (`Framing.dfy`, `Channel*.dfy`, `FrameStream.dfy`, `RequestExchange.dfy`,
  `WorkerLoop.dfy`, `Pool*.dfy`). `Channel` is the supervised non-blocking transfer loop,
  `FrameStream` whole conversations over it, `RequestExchange` a request's three messages under its
  deadline, `WorkerLoop` the child's main loop. `PoolModel` is the pool as a state machine: any number of `run` and `close` threads and child processes,
  interleaved step by step, with byte-level partial transfers, failing starts, unreapable workers
  and children that may leave at any point. `PoolSlots` (who holds what), `PoolClosing` (counts, lock,
  registry), `PoolExchange` and `PoolWires` (what is on the wires, where answers come from) keep the
  invariant; `PoolTheorems` states what holds in every reachable state, `PoolProgress` why `run` and
  `close` come to an end, and `PoolRun` that the states in which requests are answered can be
  reached. `ChannelSteps` ties the transfer loop to the state machine: what an endpoint receives and
  sends is a run of the machine's transfer steps, and `WorkerLoop` shows the child's whole loop to be
  a run of the child's steps.
* **Source ranges** (`SourceUnits.dfy`, `SourceTransport.dfy`). Offsets computed on Python strings,
  and what they select in Go after surrogate replacement, UTF-8 (section 3 of RFC 3629) and JSON.
* **Crash and race protocols** (`QaResume.dfy`, `SigningKey.dfy`, `Link*.dfy`, `Iteration.dfy`,
  `Download.dfy`). Resumable answer generation with two files, create-exclusive key files, and
  replacement of a download through symbolic links: `LinkPaths` follows and cleans paths, `LinkChains`
  and `LinkLoops` say when the recursion ends, `LinkAnswers` when its answer is right, `Download` what
  a save then does.

Text is a sequence of natural numbers: bytes on the wire, code points once decoded. Code that
updates state in place is a class or a method with a loop (`LineSplitter`, `Scanner`, `Callback`,
`Endpoint`, `Store`, `Disk`), proved against functions about which the lemmas speak.

Some properties hold only under a condition, and the condition is proved exact:

* Written lines are read back unchanged if and only if no empty line ended by LF follows a line
  ended by CR (`WrittenLinesAreRead`, `BlankLineLost`).
* Launches agree on the key in every run if and only if no write call can stop between the shortest
  accepted length and the full one (`AgreementExactly`): a launch that reads in between accepts the
  shortened key.
* Recorded query ids are free of repeats if and only if no unrecorded query id occurs twice in the
  input (`RepeatsExactly`): the set of processed ids is not updated during a run.
* `resolveDownloadPath` cleans paths lexically, a name and the `..` after it cancelling whatever the
  name stands for. Over any tree and from any path its recursion ends if and only if the dangling
  links it comes to do not run into a cycle (`EndsExactly`). For a tree with one link, anywhere in it,
  that is so unless the link is relative, cleans to itself and leads to something missing
  (`LoneLinkEndsExactly`): a link `p` to `m/../p` sends it round for ever when `m` does not exist.
* Over any tree, a call is right, in its answer or in the path it passes on, if and only if cleaning is
  harmless there (`RightHereExactly`). That is a condition on the tree: a path that exists is not
  cleaned; of a missing name the directory must be the same place cleaned and not cleaned, or exist
  neither way; of a dangling link the target taken from the cleaned directory must give the same file.
  A path and all paths passed on resolve to the file that opening them for creation would give if and
  only if every call is harmless and there is no cycle (`RightAlongExactly`); when the links are clean,
  a path does if and only if its own call is harmless (`RightWithCleanLinksExactly`).
* So, when the links are clean, a save is read back through the original path if and only if cleaning
  the path is harmless, and keeps every link if and only if the cleaned path does not hit one
  (`SavesRightExactly`; for links that are not clean, `WrittenIsRead` and `DestinationIsLinkExactly`). With `m` missing, `m/../y` is
  saved as `y` (`UncleanPathGoesElsewhere`), and a link `p` to `/m/../p` is replaced by the file
  (`LinkIsItsOwnDestination`).

Where the readers differ from the standard, the model follows the code: the Go readers keep a byte
order mark and ignore the bare line `data`; all readers skip an event with an empty payload; the
first two Go readers ignore the event type.

## Model

| member | source | states |
|---|---|---|
| SseLines.SplitAnywhere | client/sse.go:28-50 | A stream may be cut after any prefix, inside a CRLF too: the lines of the whole are the lines the prefix terminates followed by those of its tail and the rest, given one bit that tells whether a CR came last |
| SseLines.TailFacts | client/sse.go:42-48 | The lines of a complete stream are the terminated ones and, if not empty, the tail, which holds no terminator; nothing is left after a CR |
| SseLines.LineSplitter.Split | client/sse.go:32-51 | One call advances within the data, gives a line exactly when a first terminator unit or the end of the input is there, and with its one captured variable accounts for every line of the data and of anything that may follow |
| SseLines.LineSplitter.constructor | client/sse.go:33 | A fresh splitter has nothing to swallow |
| SseLines.LineSplitter.Swallow | client/sse.go:35-41 | An LF right after a CR is dropped, also when it comes in a later read, and the memory of the CR lasts until any byte comes |
| SseLines.TerminatedLinesAreFinal | client/sse.go:28-45 | Eager dispatch: lines a prefix terminates stay whatever follows, a CR at its end already ends its line, and an LF after that adds none |
| SseLines.ReadsSurvivors | client/sse.go:35-45 | Lines written with any mixture of endings read back as exactly those that do not merge with a CR before them |
| SseLines.WrittenLinesAreRead | client/sse.go:28-45 | Written lines are read back unchanged if and only if no empty LF line follows a CR line |
| SseScanner.Reader.Read | client/session.go:332-343 | The body arrives in arbitrary non-empty pieces, in order; the ending is reported only once all of it has been delivered |
| SseScanner.Scanner.constructor | client/agent.go:128-134 | A scanner starts with nothing emitted and all of the body to come |
| SseScanner.Scanner.RemainingLines | client/sse.go:32-51 | At any moment the lines emitted so far and those still due are the lines of the whole body |
| SseScanner.Scanner.Refill | client/sse.go:28-31 | Before every wait for more bytes exactly the lines terminated so far have been emitted, and reading changes nothing about the lines due |
| SseScanner.Scanner.SplitBuffer | client/sse.go:34-50 | One split call hands out the next due line or shows that the buffer holds none, at the end of the input that none is due |
| SseScanner.Scanner.Scan | client/agent.go:137-138 | The next line of the body comes out if there is one below the cap, whatever the read schedule; otherwise the scan ends with the reader's ending or with "too long", exactly as the lines of the body say |
| SseFrames.PrefixIsFieldName | client/session.go:461-468 | Testing for the prefix `name:` and cutting it off is the same as comparing the field name of a line with a colon, and taking its field value |
| SseFrames.AppendThenTrim | client/sse.go:11-17 | Appending every value with an LF and trimming one LF at the end is joining the values with LF |
| SseFrames.BlockGrows | client/session.go:461-469 | One more line in a block changes buffer and event type as the code's branches do: data lines append, the last event field wins, every other line is ignored |
| SseFrames.BlocksAppend | client/agent.go:141-163 | Blocks are found incrementally: finished blocks stay, and the open block is all that later lines can extend |
| SseFrames.StandardFromBlock | client/session.go:343-385 | From inside any block, the standard's line-by-line interpretation and the block view give the same events with data |
| SseFrames.GoAgreesWithStandard | client/session.go:436-470 | On every sequence of lines the Go readers' events are those of section 9.2.6 with data, once bare `data` lines are taken out |
| SseReaders.Dispatch | client/agent.go:144-160 | Decode failure stops before the callback; callback failure and a terminal error stop after it |
| SseReaders.Finish | client/sse.go:19-26 | After the loop a read error wins; else success if and only if the undispatched block has an empty payload |
| SseReaders.BlankRead | client/agent.go:141-162 | A blank line delivers the open block, if it has a payload, and starts a new one; nothing else of the outcome changes |
| SseReaders.BlankLine | client/session.go:348-372 | The end of a block in the loops that deliver every block: a non-empty payload is decoded and delivered, an empty one skipped, and the count goes up exactly for a payload that decodes |
| SseReaders.ContinueBlank | client/session.go:440-457 | The end of a block in the loop that filters: delivered exactly when it has a payload and its last event field is absent, empty or `message` |
| SseReaders.AgentLine | client/agent.go:138-175 | One pass of the loop leaves the outcome of the whole run as it was, for a blank, event, data or other line |
| SseReaders.KnowledgeLine | client/session.go:344-384 | The same for the loop that keeps an event type for its log |
| SseReaders.ContinueLine | client/session.go:437-469 | The same for the loop that delivers only blocks whose last event field is absent, empty or `message` |
| SseReaders.ProcessAgentSSEStream | client/agent.go:127-183 | Under every read schedule, the callback's calls and the result are those the lines of the body determine: non-empty payloads in order up to the first stop, then success, read error or incomplete frame |
| SseReaders.KnowledgeQAStream | client/session.go:332-397 | The same outcome; event type and message count have no influence on it |
| SseReaders.ContinueStream | client/session.go:428-477 | The same over exactly the blocks of type `message` |
| SseReaders.DeliverAppend | client/agent.go:144-160 | Deliveries compose: what follows a stop is never delivered, and what follows no stop continues from the calls made |
| SseTheorems.TruncationGivesPrefix | client/agent.go:137-183 | Cutting a stream anywhere, even inside a line or a CRLF, and ending it in any way yields a prefix of the callback's calls |
| SseTheorems.SuccessExactly | client/sse.go:19-26 | The result is success if and only if nothing stopped the reader, the body ended cleanly without over-long lines and its undispatched data completes to the empty string |
| SseTheorems.HandedByTheStandard | client/session.go:440-468 | The payloads handed to decoding are the data of the standard's events, all of them or those of type `message`; without bare `data` lines no correction is needed |
| SseTheorems.BomHidesFirstLine | client/agent.go:137-175 | A byte order mark is not stripped: the first line of such a stream has no effect, whatever it holds |
| SseTheorems.SplitJoin | client/sse.go:11-17 | Cutting a payload at its LFs and joining it again gives it back |
| SseTheorems.StreamRoundTrip | client/session.go:343-385 | Any list of events with non-empty CR-free data and any type, written as `event: ` and `data: ` lines with a blank line each and one uniform ending, is read as exactly these events with nothing left over; all three readers hand on their data, ContinueStream that of the message events |
| SseTheorems.UntypedEvents | client/session.go:441-442 | Events without a type are handed on by all three readers, one payload each, unchanged and in order |
| SseTheorems.WrittenStreamIsDelivered | client/session.go:436-476 | All three readers deliver a written stream's data in order, and succeed unless one of them stops them |
| SseTheorems.BlankLineLost | client/sse.go:28-31 | The blank line of an event is lost exactly when it ends in LF and the line before it in CR |
| PythonSse.OversizeBlock | mcp-server/weknora_mcp_server.py:548-552 | A block that has outgrown the cap fails the run whatever follows |
| PythonSse.TakeLine | mcp-server/weknora_mcp_server.py:542-554 | After each line the collected values are the block's data values and the byte count is the sum of their UTF-8 lengths plus one each |
| PythonSse.BlankLine | mcp-server/weknora_mcp_server.py:557-582 | A blank line dispatches a block with data and otherwise does nothing; the rest of the run is unchanged |
| PythonSse.Dispatch | mcp-server/weknora_mcp_server.py:562-582 | An undecodable payload is skipped; answers accumulate, references are replaced, error and complete end the run |
| PythonSse.ConsumeSseStream | mcp-server/weknora_mcp_server.py:524-590 | The result is the one the blocks of the stream determine; at every loop head the byte count is that of the collected values and within the cap |
| PythonSseTheorems.FirstStopIsFirst | mcp-server/weknora_mcp_server.py:549-584 | The stop is the first block that is too large, unusable, an error or complete |
| PythonSseTheorems.NormalReturnExactly | mcp-server/weknora_mcp_server.py:557-590 | Normal return if and only if the first stop is a complete event within the cap; then the answer is the concatenation of the earlier answers and the references are the last ones |
| PythonSseTheorems.NothingAfterStopMatters | mcp-server/weknora_mcp_server.py:581-584 | No line after the stop has any influence on the result |
| PythonSseTheorems.PythonFollowsTheStandard | mcp-server/weknora_mcp_server.py:535-565 | The non-empty payloads handed to decoding are exactly the data of the standard's events, bare `data` lines included |
| PythonSseTheorems.EncodedPayloads | client/agent.go:141-175 | Reading the UTF-8 encoded lines gives the UTF-8 encoded payloads of the decoded lines |
| PythonSseTheorems.ReadersAgree | mcp-server/weknora_mcp_server.py:535-565 | Go and Python hand on the same payloads, as UTF-8 and as Go runes, on any lines once bare `data` lines are removed; without such lines and without a byte order mark no correction is needed |
| Utf8.EncodeOneIsRead | docreader/main.py:41-45 | The one to four bytes of a code point decode to it and to nothing longer or shorter, whatever follows |
| Utf8.EncodeIsRead | docreader/main.py:41-45 | Go's runes of a UTF-8 encoded text are its code points |
| Utf8.AsciiPrefix | client/agent.go:166-174 | An encoded text starts with an ASCII prefix exactly when the text does, and the remainders correspond |
| Utf8.Sanitize | docreader/main.py:41-45 | Surrogate replacement keeps the length and every other code point in its place |
| Utf8.SanitizeSlice | docreader/main.py:41-45 | Replacing surrogates commutes with slicing |
| Utf8.SentIsRead | docreader/main.py:41-45 | What Go reads after sanitising and encoding is the sanitised text, for every Python string |
| SourceUnits.AssembleSourceBlocks | docreader/source_units.py:19-70 | The text is the non-empty block texts joined by separators and the units are those the blocks and their positions determine, defaults and child rules included |
| SourceUnits.AddChildren | docreader/source_units.py:48-66 | Exactly the children whose range is proper and inside the block become units, numbered by their position among all children |
| SourceUnits.UnitsExact | docreader/source_units.py:28-66 | Every unit, parent or child, has the exact range of its text in the assembled document |
| SourceUnits.ParentsTile | docreader/source_units.py:28-33 | Parent ranges are in order, exactly one separator apart, and with the separators cover the whole text |
| SourceUnits.ChildrenInsideParents | docreader/source_units.py:48-66 | Every unit is a parent, or lies inside the parent whose id it names |
| SourceTransport.EscapeIsRead | docreader/main.py:52-56 | Reading a JSON string back gives the text it was written from |
| SourceTransport.SanitizeEscape | docreader/main.py:52-60 | Sanitising the JSON string is writing the JSON string of the sanitised text |
| SourceTransport.ReceivedTextIsSanitized | docreader/main.py:48-61 | A unit text that travels in the metadata arrives as the sanitised text |
| SourceTransport.RangesSurviveTransport | docreader/source_units.py:9-12 | For every unit, the runes Go finds in the unit's range of the received document are the text received for the unit |
| Framing.HeaderRoundTrip | docreader/preprocess.py:93-99 | The four big-endian length bytes decode to the length |
| Framing.HeaderUnique | docreader/preprocess.py:93-99 | Four bytes encode only the length they decode to |
| Framing.ReceivingFrame | docreader/preprocess.py:96-104 | At every point inside a frame the receiver asks only for bytes of that frame; at its end it has the message |
| Framing.NeverBeyondTheFrame | docreader/preprocess.py:96-104 | What a receiver takes from a stream that starts with a frame never reaches beyond that frame and is never refused, and a complete message is the one sent |
| Framing.FramesDiffer | docreader/preprocess.py:90-104 | Streams of frames decode uniquely: no frame is the beginning of another |
| Framing.ReceivedWereSent | docreader/preprocess.py:90-104 | Whatever part of the stream has arrived, the complete frames taken from it are the first messages sent, in order |
| Framing.PiecesOfOne | docreader/preprocess.py:71-86 | Any pieces that together are no more than what a receiver asks for can be taken one after the other, each as part of what it still asks for |
| Channel.Endpoint.Transfer | docreader/preprocess.py:71-88 | Under every schedule of waits, spurious wake-ups and partial moves, bytes move in order and none beyond the buffer; it ends only when done, or for the reason that the latest check, wait or closed channel gives; a finished transfer passed a check after its last byte; a supervised one is over within one poll of its deadline, and gets on with every turn that moves bytes when nothing fails |
| Channel.Endpoint.Iterate | docreader/preprocess.py:73-86 | One pass of the loop keeps the order of the bytes, the deadline and the progress |
| Channel.Endpoint.Await | docreader/preprocess.py:73-85 | Each iteration checks before it waits and waits at most once; time-outs and would-block results only repeat it |
| Channel.Endpoint.RecvBytes | docreader/preprocess.py:96-104 | A returned message is exactly one frame of the stream; any other end has its reason, and leaves a frame cut short, refused or failed by its last check, with no byte of the next one taken. The bounds by the deadline, by the number of turns it may wait, and the progress hold for the whole message |
| Channel.Endpoint.SendBytes | docreader/preprocess.py:90-94 | A message within the limit goes out as exactly its frame, or as the beginning of it on failure; a larger one is refused before any byte is sent. The same bounds hold for the whole message |
| FrameStream.ReceiveAll | docreader/preprocess.py:96-104 | Successive receives under any schedule return the first messages sent, in order; all of them when the stream has them all, nothing fails, and there are turns enough |
| FrameStream.SendAll | docreader/preprocess.py:90-94 | Successive sends put out the frames of the messages sent and at most the beginning of the next; all of them when they fit, nothing fails, and there are turns enough |
| FrameStream.RoundTrip | docreader/preprocess.py:90-104 | Messages within the limit, sent by one end and received by the other under any two schedules, arrive as the first of them in order; exactly all of them when nothing fails and each end has turns enough |
| RequestExchange.Exchange | docreader/preprocess.py:241-247 | Ready message, image and response under one deadline: whoever stalls in the middle of a message, the exchange is over within one poll of the deadline and waits for fewer turns than ticks were left; an answer passed its last check before the deadline and is exactly the frame after the ready message |
| ChannelSteps.ChildReceives | docreader/preprocess_worker.py:126-127 | What the child's endpoint takes, and leaves, is what a run of the pool's Begin and Read steps takes and leaves |
| ChannelSteps.ChildSends | docreader/preprocess_worker.py:125-129 | What the child's endpoint puts out is what a run of its WriteReady or Respond steps puts out; a message beyond the limit is refused and changes nothing |
| ChannelSteps.ChildRunsInPool | docreader/preprocess_worker.py:124-135 | A run of a child's steps is a run of the pool that changes nothing but that child's worker |
| ChannelSteps.RequestReceives | docreader/preprocess.py:243-247 | What the service's endpoint takes is what a run of the request's TakeReady or TakeResponse steps takes |
| ChannelSteps.RequestSends | docreader/preprocess.py:246 | What the service's endpoint puts out is what a run of the request's SendSome steps puts out |
| WorkerLoop.Announce | docreader/preprocess_worker.py:125 | The ready message comes before any answer, or is cut short and ends the child; either way as its WriteReady, Booted and Leave steps do |
| WorkerLoop.AnswerImage | docreader/preprocess_worker.py:128-131 | An image read completely is computed on once, and its answer sent or cut short, as a run of the Compute, Respond, Responded and Leave steps; the child stays exactly if the answer went out and lets it |
| WorkerLoop.ServeOne | docreader/preprocess_worker.py:127-131 | One pass answers the next image completely, or stops, for a reason given, with at most one frame cut short; the child stays if and only if the response lets it; the pass is a run of the child's steps |
| WorkerLoop.RunWorker | docreader/preprocess_worker.py:125-135 | Every complete answer on the wire, after the ready message, answers the image at the same place in what was read; the loop ends exactly when a poll finds nothing, a response tells the child to leave, or the channel fails, and only the last image can have ended it. Whatever the channel does, the whole loop is a run of the child's steps in the pool from its start until it is gone, with the images served in its log |
| PoolSlots.MovedKeeps | docreader/preprocess.py:229-238 | Moving a slot between queue and thread keeps every slot in one place and every process with its slot |
| PoolSlots.WorkerStartedKeeps | docreader/preprocess.py:158-169 | A process started for a slot is the only one not reaped that belongs to it |
| PoolSlots.SlotGoneKeeps | docreader/preprocess.py:176-187 | Giving up a slot whose worker cannot be reaped keeps all other slots and processes placed |
| PoolSlots.StepKeepsSlots | docreader/preprocess.py:215-264 | Every step of every thread, child and closer keeps slots and unreaped processes uniquely placed |
| PoolClosing.StepConserves | docreader/preprocess.py:228-264 | Every step keeps idle, held, lost and dropped slots equal to the pool size in total |
| PoolClosing.StepKeepsClosing | docreader/preprocess.py:158-187 | Every step keeps the lock with the thread that starts a process, every unstopped process registered, and every registered process on the list of each closer past its snapshot or among its failures |
| PoolExchange.ComputedOnTheImage | docreader/preprocess_worker.py:127-128 | A child that computes during a request does so on that request's whole image |
| PoolExchange.ResponseIsTheComputedOne | docreader/preprocess.py:246-249 | A complete response is the one computed for this image, and if it lets the worker be reused the wires are clean |
| PoolExchange.ChildKeepsPhase | docreader/preprocess_worker.py:124-135 | No step of a child, leaving at any moment included, breaks what the request's phase says about the wires |
| PoolExchange.TalkKeepsPhase | docreader/preprocess.py:241-249 | No partial send, partial receive or completed exchange of the request breaks it either |
| PoolWires.HeldOnce | docreader/preprocess.py:228-238 | No worker is in two places |
| PoolWires.StepKeepsWires | docreader/preprocess.py:215-271 | Every step of anyone, concurrent stops included, keeps every idle worker clean and every busy one as its phase says |
| PoolWires.TakeKeepsAnswers | docreader/preprocess.py:247-249 | The response taken now was computed for this image, and nobody else has it |
| PoolWires.StepKeepsAnswers | docreader/preprocess.py:241-264 | Every step keeps all answers genuine and from different computations |
| PoolTheorems.ReachableInv | docreader/preprocess.py:137-271 | The whole invariant holds in every state that any interleaving reaches |
| PoolTheorems.ReachableHeld | docreader/preprocess.py:137-271 | Who holds what, the counts, the lock and the registry are right in every reachable state, whatever the response codec does |
| PoolTheorems.ResponsesMatchRequests | docreader/preprocess.py:241-249 | A response returned from a child was computed by that child for that request's image, and no computation answers two requests |
| PoolTheorems.IdleWorkersAreClean | docreader/preprocess.py:248-264 | A worker in the idle queue is ready and its channel is empty in both directions |
| PoolTheorems.SlotsAreConserved | docreader/preprocess.py:141-143 | Idle, held, lost and dropped slots are always the pool size in total, with none dropped before close |
| PoolTheorems.PutFindsRoom | docreader/preprocess.py:264 | Returning a slot never finds the queue full |
| PoolTheorems.NoWorkerIsHeldTwice | docreader/preprocess.py:229-238 | No worker is with two requests, with a request and in the queue, or twice in the queue |
| PoolTheorems.ProcessesAreBounded | docreader/preprocess.py:176-187 | At most the pool size of unreaped processes exist at any time |
| PoolTheorems.OneThreadIsFree | docreader/main.py:195-201 | Of any `max_workers + 1` threads, such as those of the handlers' executor, at least one is not occupied with a child, whatever other threads there are |
| PoolTheorems.NothingStartsAfterClose | docreader/preprocess.py:158-160 | From the snapshot of close on, in every continuation, no process is ever started |
| PoolTheorems.CloseStopsEverything | docreader/preprocess.py:266-271 | Once close has returned every process ever started has been stopped and unregistered, except those whose stop failed in it |
| PoolProgress.NobodyIsStuck | docreader/preprocess.py:215-271 | A thread that has not returned can take its next step now, unless that step needs the lock while another thread is starting a process, which can then end now |
| PoolProgress.RunTakesFinitelyManySteps | docreader/preprocess.py:215-264 | Whatever other threads and children do, a request takes no more own steps than its phases and the bytes of its three frames |
| PoolProgress.CloseTakesFinitelyManySteps | docreader/preprocess.py:266-271 | Whatever others do, close takes no more own steps than two for each process ever started, and three |
| PoolRun.AnyResponseIsPossible | docreader/preprocess.py:215-264 | The pool does its work: with at least one slot, any image within the limit can be answered with any response its worker may compute, by a run from start to end; every slot is then back in the queue, with the worker exactly if the response lets it be reused |
| QaResume.Ask | dataset/qa_dataset.py:273-297 | The first reply within the allowed attempts is taken; without one exactly the allowed attempts were made and all failed |
| QaResume.Save | dataset/qa_dataset.py:283-284 | A kill leaves the pairs as they were and the answers old or new; otherwise both files are saved |
| QaResume.Answered | dataset/qa_dataset.py:273-297 | Asking one query and saving what came of it keeps files and memory in step, and a kill costs at most one orphan answer |
| QaResume.Visit | dataset/qa_dataset.py:269-297 | One pass of the loop passes over a recorded query and asks another one; if the run goes on it stands where it should after one query more, and if it is killed it leaves what a killed run leaves |
| QaResume.GenerateAnswers | dataset/qa_dataset.py:248-297 | One run keeps the files sound with at most one orphan more if killed, keeps what was recorded, never asks a recorded query, and unless killed records every query when all are answered |
| QaResume.Campaign | dataset/qa_dataset.py:248-297 | After any number of runs, killed between any two saves or not, answer ids are 1..n, each query is recorded once with an answer of its own that is a reply to it, and orphans are at most the kills |
| QaResume.RepeatsExactly | dataset/qa_dataset.py:255-271 | Recorded ids are free of repeats if and only if no unrecorded query occurs twice |
| SigningKey.StepKeepsInv | cmd/desktop/signing_key.go:38-64 | Every step of every launch keeps the file a beginning of its creator's key, and a complete file as it is |
| SigningKey.KeysAgree | cmd/desktop/signing_key.go:38-68 | All launches that succeed use the contents of the file, hence one key, and a complete key file is never replaced in any continuation |
| SigningKey.UnfinishedFileIsRefused | cmd/desktop/signing_key.go:91-119 | A launch that reads a file its creator has not finished, at either read, fails for good in every continuation and leaves the file alone |
| SigningKey.UnsafeCutBreaksAgreement | cmd/desktop/signing_key.go:52-64 | A run of two launches with different keys for every write that can stop between the shortest accepted and the full length |
| SigningKey.AgreementExactly | cmd/desktop/signing_key.go:38-68 | Launches agree in every run if and only if no write can stop between these lengths |
| LinkPaths.FollowAppend | client/knowledge.go:1042-1052 | A path is followed in two parts, the directory and then the rest, with links in either counted |
| LinkPaths.CreateFinds | client/knowledge.go:1042-1048 | Following a path and opening it for creation differ only when its very end is missing |
| LinkPaths.CleanStays | client/knowledge.go:1049-1069 | Lexical cleaning leaves a path as it is exactly when no `..` comes after a name or in an absolute path |
| LinkPaths.JoinFollows | client/knowledge.go:1067-1069 | Joining a real directory and a clean relative target leads where the target leads from that directory |
| LinkPaths.ResolveFollows | client/knowledge.go:1041-1071 | For a clean path and clean links every call is harmless: the recursion ends, within as many calls as there are links to walk, and gives exactly the file that opening the path for creation would give, existing or not, or an error for a cycle, more than 255 links, a path through a file, or a missing directory |
| LinkPaths.ResolveEnds | client/knowledge.go:1041-1071 | When all link targets are clean the recursion ends whatever path it starts from |
| LinkChains.EndsExactly | client/knowledge.go:1041-1071 | Over any tree and from any path, the recursion ends if and only if the dangling links it comes to, each with the directory it takes it to be in, do not run into a cycle; if it ends, it does so within as many calls as the tree has such pairs, and one more |
| LinkChains.HopsAreLinks | client/knowledge.go:1063-1070 | With relative links, from a clean path, the next call depends only on the dangling link just reached: a cycle is a cycle of links |
| LinkLoops.LoneLinkEndsExactly | client/knowledge.go:1049-1070 | In any tree with one link, anywhere in it and with any target, the recursion from the link ends, within two calls, if and only if it is not a relative link that cleans to itself and leads to something missing |
| LinkLoops.LinkInRootAlwaysEndsExactly | client/knowledge.go:1063-1070 | A relative link in the root ends in every tree in which it is alone if and only if its target does not clean to the link, or begins with it |
| LinkAnswers.MissingExactly | client/knowledge.go:1049-1055 | In any tree, for any path whose directory or last name is missing, the answer is right if and only if the cleaned directory is the directory, or neither exists |
| LinkAnswers.LinkExactly | client/knowledge.go:1063-1070 | In any tree, for any path that ends in a dangling link, the call is right if and only if the link's target, taken from the cleaned directory and cleaned, gives the same file as the target from the link's own directory |
| LinkAnswers.RightHereExactly | client/knowledge.go:1041-1071 | In any tree and for any path, one call is right if and only if cleaning is harmless there, as a condition on the tree |
| LinkAnswers.RightAlongExactly | client/knowledge.go:1041-1071 | In any tree and for any path, the path and all paths passed on resolve to the file that opening them for creation would give if and only if there is no cycle and every call on the way is harmless |
| LinkAnswers.AlwaysRightExactly | client/knowledge.go:1041-1071 | A tree resolves rightly for all paths if and only if no path runs into a cycle and cleaning is harmless for every path |
| LinkAnswers.RightWithCleanLinksExactly | client/knowledge.go:1041-1071 | With clean links, any path resolves rightly if and only if cleaning it is harmless |
| LinkAnswers.ResolvesByTheTree | client/knowledge.go:1041-1071 | With clean links the result for any path can be read off the tree: what exists, else nothing without the cleaned directory, else the missing name in the cleaned directory, else what the dangling link's target, from the cleaned directory, would create |
| LinkAnswers.DestinationIsLinkExactly | client/knowledge.go:1054-1061 | In any tree and from any path, the destination is a link if and only if the path of the last call has, in its cleaned directory, a link of the name that is missing |
| LinkAnswers.HitsLinkWithCleanLinksExactly | client/knowledge.go:1054-1061 | With clean links only the path itself can hit a link in this way, and the destination is a link exactly if it does |
| LinkAnswers.LinkIsItsOwnDestination | client/knowledge.go:1049-1070 | A link p to `/m/../p` with m missing resolves to itself, so that a save replaces it |
| LinkAnswers.UncleanPathGoesElsewhere | client/knowledge.go:1049-1055 | For `m/../y` with m missing the destination is y, where nothing could be created through the path |
| Download.LeadsToWritten | client/knowledge.go:1037 | Once a file is written at a place, a path leads there exactly when opening it for creation led there before |
| Download.WrittenIsRead | client/knowledge.go:1012-1038 | In any tree and for any path, reading through the original path gives the saved body exactly when opening the path for creation, with a link at the destination taken away, would have given the destination |
| Download.LinksAreKept | client/knowledge.go:1037 | All links are still there exactly when the destination was none |
| Download.SavesRightExactly | client/knowledge.go:1012-1071 | With clean links, for any path: a save is read back through the path if and only if cleaning the path is harmless, and keeps every link if and only if the path does not hit one |
| Download.SavesWherePathLeads | client/knowledge.go:1041-1071 | The destination is what the path leads to, and no link, for every path that exists and whenever it and all links are clean |
| Download.Disk.SaveTo | client/knowledge.go:1018-1037 | On success only the destination changed, to the complete body with the permissions of what was there; on failure nothing, or only a left-over temporary file whose removal failed; without faults it succeeds |
| Download.Disk.SaveDownloadedFile | client/knowledge.go:1013-1038 | The same from the path on, with exactly when reading through the path gives the body and exactly when every link is kept, for any path and tree; for a path that exists, or is clean as all links are, both hold. Endless recursion is the only way to crash, and changes nothing |
| Download.Disk.Rename | client/knowledge.go:1037 | Renaming replaces the destination at once, or fails and changes nothing |

## Left out

- The HTTP, gRPC, command-line, desktop and documentation parts, and the typed client wrappers: no state whose runs are hard to follow.
- JSON, protobuf and image processing: partial functions on payloads. The child's serialization is assumed to be read back by the service.
- SseScanner.Scanner.Scan: buffer growth, a reader that returns no bytes and no error, and a reader that reports its ending together with bytes that fill the buffer to the last byte of the cap are not modelled.
- PythonSse.ConsumeSseStream: starts from decoded lines; splitting bytes into lines, invalid UTF-8 and transport errors are not modelled. JSON on which field access fails ends the run as a crash. The cap is a parameter whose default is the source's 8 MiB; the theorems hold for every cap.
- PoolTheorems.ReachableInv: the pool is a state machine on values, since its results are about interleavings of many threads; updates in place of the queue and the worker set are steps of it, and the locks of the queue and the set are taken as atomic steps.
- PoolProgress.NobodyIsStuck: says that a step is possible, not that the operating system schedules it. A deadline or a failed check is a step that may come at any time while a request is exchanging bytes.
- ChannelSteps.RequestReceives: the bytes the peer will write are given at once; in the pool the peer's own steps come in between.
- Process details: memory limits, `/proc` and `ps`, signals and environment are nondeterministic outcomes (exited, over memory, could not be reaped). One stop of a worker is a single step that succeeds or fails. Every request thread serves one request.
- Channel.Endpoint.Transfer: the bytes the peer will ever write are given as one sequence, and how many are there at each wait is up to the schedule. A transfer without checks, as in the child, may wait for ever; it then ends as `Waiting`. The time a check itself takes is not counted.
- RequestExchange.Exchange: the time to start a worker before it, and to stop one after it, is not counted.
- SourceUnits.AssembleSourceBlocks: values that Python would convert with `str` or `int` are given converted; a page that is not a number, which raises an exception, is not modelled.
- QaResume.Campaign: each save is atomic, as a save that is cut short would need the file format; sampling and the API are left out.
- SigningKey.KeysAgree: a state machine on values, since the result is about interleaved launches. One file is modelled; both key files follow the same steps. Directory creation, the environment variables and the choice between an existing key and a new one are left out.
- LinkPaths.ResolveFollows: the case of clean paths and links; `LinkChains` and `LinkAnswers` give the exact conditions for all others. Trailing separators, volume names, the permissions of directories and the smaller link limit of the operating system's own lookups are not modelled.
- LinkPaths.ResolveEnds: the case of clean links; `LinkChains.EndsExactly` is the one for all trees.
- Download.Disk.SaveDownloadedFile: how many recursive calls there is room for is a parameter. A crash in the middle of a save is not modelled, nor another process that changes the directory meanwhile.
