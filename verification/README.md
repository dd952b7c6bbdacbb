# Verified model of the cerco runtime cores

cerco is a web framework in C: a server with a bounded worker pool, arenas and a
streaming HTTP loop, and a client compiled to WebAssembly that drives the page through a
byte stream of DOM commands. This project models the parts of it that carry state or
formats across a boundary, and proves what they promise one another.

| file | part of the repository |
|---|---|
| `Sequences.dfy`, `Bytes.dfy` | sequence facts; bytes, machine words, little-endian layout, C strings |
| `DomStream.dfy` | DOM command encoder and flush rule (wasm), command decoder (JavaScript) |
| `HostDom.dfy`, `PageEffects.dfy` | what each command does to the page, the node registry and the event slots; each effect told on the page before and after |
| `Decimal.dfy` | decimal formatting of 32-bit integers |
| `Signals.dfy` | signals, text and class bindings over the command stream |
| `Wire.dfy` | the tagged little-endian value reader and writer |
| `ClientLibc.dfy` | the client's overlapping `memmove` |
| `ServerFunctions.dfy` | remote calls: client encoder, generated stubs, server decoder, replies |
| `CallUrl.dfy`, `CallTable.dfy` | the URL of such a call in scratch memory; pending calls and fetches, one callback each |
| `WorkerPool.dfy` | the bounded worker pool as interleaved steps |
| `LinkedLists.dfy`, `Connections.dfy`, `ConnectionEffects.dfy` | connection teardown, the active list, the recycling pool, the event-stream list; what each callback brings about |
| `Arena.dfy`, `BumpHeap.dfy` | the server's chunk arena and the client's bump heap |
| `ResponseBuffer.dfy` | the response buffer and the completion drain's decision |
| `Sha256.dfy`, `Sha256Constants.dfy` | streaming SHA-256 against the whole-message definition of FIPS 180-4; where its constants come from |
| `Router.dfy`, `RouteText.dfy` | in-place path split, matching and captures; the routing table, told on the text of its routes |
| `Layouts.dfy` | layout chains and the generated wrapper functions |
| `Search.dfy`, `Escape.dfy`, `PageTitle.dfy`, `PageMarkers.dfy` | substring search, HTML escaping, title splice, page extraction |
| `UrlEncoded.dfy` | percent-decoding and the two walkers over urlencoded pairs |

Code that updates state step by step is modelled by methods and classes over fields and
arrays; each is proved against a function or predicate on values, and the theorems about
whole runs are lemmas about those. libuv, `malloc`, `memory.grow`, the browser and the
threads appear as parameters or steps with stated assumptions: `malloc` returns memory
apart from all live chunks or nothing (`Arena.Honest`), each write and close callback is
delivered once, a mutex section is one step.

Where the code does less than its comments or documents say, the model follows the code:

* The pool's submit checks the job ring only, while its comment relies on completions
  fitting theirs. `OverwriteIffOverCommitted` gives the exact condition under which a
  completion can be overwritten, `SubmitOverCommits` shows that submits alone reach it,
  and `CompletionLost` is a concrete run that loses one.
* `docs/server-functions.md:65-66` says a payload must decode exactly. `ServedIff` says
  which bodies are served: a word, values of the declared types, any bytes. The word, which
  should be the argument count, never matters (`CountIgnored`), and a served body decodes
  exactly if and only if that word is right and nothing follows (`DocumentedIff`);
  `WrongCountServed` is a body that does neither.
* The comment in `runtime/client/sf.c:35-38` says that overflowing arguments drop. The call
  is refused exactly when the frame is too long, but by then the stub has written past
  its buffer exactly when some fixed-size argument ends past it (`SfClient.Call`,
  `StringThenWordOverruns`).
* An error message shorter than four bytes reaches the client as a network error;
  `ErrorArrives` covers every length. The client's length test is five bytes short
  (`OverReadIff`, `MessageOverRead`).
* The arena's hard cap is checked against the request, not the chunk it allocates:
  `CapPassedIff` says when an allocation passes it, `TotalStaysNearCap` by how much,
  and `LimitAttained` reaches that limit for every cap of 65 bytes or more. A request over
  4 MiB that does not fit always fails (`OversizeFails`), and one whose padding wraps is
  handed memory it does not have (`InsideIff`, `WrappedRequestFits`).
* The client heap's sums wrap at 32 bits. `AllocSoundIff` and `StickyProtectedIff` are the
  exact conditions of a sound allocation and of a sticky one; `WrappedTopOverlaps` and
  `EmptyStickyReused` are runs outside them.
* The comment in `runtime/browser/host.js:82` says that handlers inside replaced contents die. The
  code looks for them after the replacement, when they are no longer inside, so none does
  (`EditEffect`).
* A rewind to the linker's base does not round it up as initialisation does; blocks are always
  aligned if and only if that base is (`AlignedIff`).
* Commands over 8192 bytes can overrun the command buffer (`EightKiBIsTight`).
* A bound class name that is no token makes the browser throw and lose the rest of the batch
  (`TokenNeeded`, `BlankClassLosesRest`).
* A route of more than 24 literal segments never matches its own path
  (`LiteralRouteServesItselfIff`).
* A directory 64 or more levels deep loses the layouts of its outermost directories
  (`ChainIsLayoutsAbove`, `DeepRouteLosesRoot`). A directory is looked up rightly in every
  tree if and only if its text has at most 254 characters (`FindsRightIff`); siblings below
  a longer path share layouts (`SiblingsCollide`).
* A handler's captures rebuild its request if and only if there are at most sixteen
  (`MatchRebuilds`).
* The URL of a server-function call is right if and only if the function's id is below 1000
  (`UrlRightIff`): a longer one runs over its 16-byte scratch block.
* A call accepted while the client's fetch table is full never gets a callback and keeps
  its slot for good (`StrandedIff`, `StrandedKeepsSlot`); every other one gets exactly one
  (`OneCallbackOrStranded`).

## Model

| member | source | states |
|---|---|---|
| DomStream.ParseInvertsEncode | runtime/browser/host.js:35-97 | the JavaScript decoder reads each of the twelve commands the C encoder writes, at any offset, and advances exactly over it |
| DomStream.DecodeInvertsEncode | runtime/browser/host.js:99-108 | decoding a batch of encoded commands gives those commands and ends at the end of the batch |
| DomStream.StepSound | runtime/client/dom.c:52-71 | every issue and flush keeps buffer and batches whole numbers of commands and adds exactly the issued command to what the host sees |
| DomStream.RunSound | runtime/client/dom.c:52-71 | over a run that fits the buffer, the host's commands plus the buffered ones are the earlier ones followed by the issued ones |
| DomStream.SmallCommandsFit | runtime/client/dom.c:52-71 | commands of at most 8192 bytes never overrun the 32768-byte buffer, in any run; at rest at most 24576 bytes are buffered |
| DomStream.StreamFaithful | runtime/client/dom.c:34-147 | for every run of DOM calls with commands of at most 8192 bytes: no overrun, no flush splits a command, and decoding all flushed batches and then the buffer gives exactly the issued commands in order |
| DomStream.EightKiBIsTight | runtime/client/dom.c:52-71 | any longer command overruns the buffer after some run of small ones whose texts are C strings |
| DomStream.CommandBuffer.PutU32 | runtime/client/dom.c:36-41 | appends the four little-endian bytes of the word |
| DomStream.CommandBuffer.PutStr | runtime/client/dom.c:43-50 | appends the length and the bytes |
| DomStream.CommandBuffer.End | runtime/client/dom.c:58-64 | flushes exactly above the high-water mark |
| DomStream.CommandBuffer.DomFlush | runtime/client/dom.c:66-71 | hands the buffered bytes to the host and empties the buffer |
| DomStream.CommandBuffer.SetText | runtime/client/dom.c:75-80 | is the stream step that issues a text command |
| DomStream.CommandBuffer.SetAttr | runtime/client/dom.c:82-88 | is the stream step that issues an attribute command |
| DomStream.CommandBuffer.Create | runtime/client/dom.c:118-127 | issues a create command under the next dynamic id and returns that id |
| DomStream.CommandBuffer.On | runtime/client/dom.c:267-277 | takes the next event slot and issues its command; does nothing when the slots are used up |
| HostDom.AppliedConcat | runtime/browser/host.js:99-108 | replaying two command lists one after the other is replaying their concatenation, so batch boundaries do not show |
| HostDom.PlayedAll | runtime/browser/host.js:99-108 | a batch of commands no browser refuses is played to its end |
| HostDom.BlankClassLosesRest | runtime/browser/host.js:59-60 | adding a class name with a blank throws: the rest of its batch is lost |
| HostDom.ExtendsApplied | runtime/browser/host.js:115-123 | registering a queried element under a new id commutes with the commands still buffered |
| HostDom.ApplyWellFormed | runtime/browser/host.js:44-97 | every command keeps the registry inside the page's elements and every class a token |
| HostDom.PlayedUpTo | runtime/browser/host.js:99-108 | a batch is played up to the first command the browser refuses, and stops there |
| PageEffects.CreateEffect | runtime/browser/host.js:44-52 | a new element has the tag, is empty and registered, and is the last child of the named parent's element and of no other; nothing else changes |
| PageEffects.AppendChildEffect | runtime/browser/host.js:56 | the child leaves the list it stood in and becomes the last child of the parent; the other lists keep their order |
| PageEffects.RemoveNodeEffect | runtime/browser/host.js:57 | the element is in no list of children any more, its id names nothing, and everything else stays |
| PageEffects.EditEffect | runtime/browser/host.js:53-96 | text, value, contents, one attribute or the class list change as the command says, only on the named element; event slots survive a replacement of contents |
| PageEffects.TokensAreRuns | runtime/browser/host.js:58 | the classes set from a text are its maximal runs without blanks |
| PageEffects.AddEventEffect | runtime/browser/host.js:61-81 | the slot goes behind those of the same node and event type; an unknown node gets none |
| PageEffects.PageStaysForest | runtime/browser/host.js:44-97 | over every run of commands each element stands in at most one list of children, once; if the browser takes the commands, no element lies below itself |
| HostDom.Host.DomFlush | runtime/browser/host.js:99-108 | the host's loop applies exactly the commands the batch decodes to, up to the first one that throws |
| Decimal.TextReadBack | runtime/client/env.c:198-208 | reading the text back as a decimal number gives the integer, INT32_MIN included |
| Decimal.I32ToStr | runtime/client/env.c:198-208 | the digit loops produce exactly that text |
| Signals.OtherKeeps | runtime/browser/host.js:44-97 | a command that does not write a bound node leaves what its binding shows |
| Signals.SubCmdsShow | runtime/client/dom.c:193-236 | running all subscribers leaves every one of them showing the new value |
| Signals.TokenNeeded | runtime/browser/host.js:59-60 | setting a class-bound signal to a nonzero value shows the class if and only if its name is a token |
| Signals.SetKeeps | runtime/client/dom.c:193-200 | setting a signal keeps every binding of every signal tracking |
| Signals.BindKeeps | runtime/client/dom.c:212-222 | binding a node makes it track and disturbs no other binding |
| Signals.RunSettles | runtime/client/dom.c:52-71 | what the host has played plus what is buffered is what was buffered before plus what was issued |
| Signals.QueryKeeps | runtime/browser/host.js:115-123 | a query between DOM calls disturbs no binding, whatever is still buffered |
| Signals.StepSettles | runtime/client/dom.c:52-71 | buffering is invisible: a command acts on the settled page at once, flushes, binds and sets bring the host up to date, a query registers its element |
| Signals.RecordsKept | runtime/client/dom.c:180-253 | after any calls there is one signal per creation, holding the value given to it last, and its subscribers are exactly the nodes bound to it |
| Signals.BindingsTrack | runtime/client/dom.c:193-253 | told on the calls alone: after every run of creating, binding (with class names that are tokens) and setting signals, of queries, and of other DOM calls the browser takes that leave bound nodes alone, every node a call bound to a signal shows the value a call gave that signal last - its exact decimal, or the class if and only if it is nonzero - in the page as flushed so far and once the rest is flushed |
| Signals.SignalRuntime.Bind | runtime/client/dom.c:212-253 | the subscriber joins the signal's list, the earlier ones stay, and it is synchronised at once |
| Signals.SignalRuntime.SignalSet | runtime/client/dom.c:193-200 | the signal holds the value; unchanged values do nothing, others run every subscriber and flush |
| Wire.ReadRawAt | runtime/shared/wire.c:38-74 | any byte form of a value reads as that value and ends behind it |
| Wire.ReadIsRaw | runtime/shared/wire.c:38-74 | a value is read from one of its byte forms only |
| Wire.ReadValAt | runtime/shared/wire.c:38-74 | reading an encoded value anywhere gives it back (booleans as 0 or 1) and stops at its end |
| Wire.ReadValLocal | runtime/shared/wire.c:11-74 | a successful read does not depend on bytes behind the value |
| Wire.ValSize | runtime/shared/wire.c:139-147 | the size query is the length of the encoding |
| Wire.WReader.RVal | runtime/shared/wire.c:38-74 | the stateful reader does what the reader function says, failure flag and position included |
| Wire.WWriter.Put | runtime/shared/wire.c:83-88 | a write that does not fit sets the error flag and writes nothing |
| Wire.WWriter.WriteVal | runtime/shared/wire.c:120-137 | unless a write did not fit, exactly the value's encoding was appended |
| ClientLibc.MemMove | runtime/client/env.c:21-32 | overlapping or not, the target holds the old source bytes and nothing else changes |
| ServerFunctions.EncodersAgree | runtime/client/sf.c:40-95 | the client's argument encoder and the shared value format agree on every argument, and the server's type check accepts and passes on its value |
| ServerFunctions.CallArrives | cli/build.c:485-510 | for every signature and argument vector, the server decodes the client's frame to the same typed values in order and ends exactly at the frame's end |
| ServerFunctions.TrailingBytesIgnored | runtime/server/sf.c:84-104 | bytes behind an accepted frame change nothing |
| ServerFunctions.TruncatedFrameRejected | runtime/server/sf.c:84-104 | no proper prefix of a frame reaches the handler |
| ServerFunctions.RequestServed | runtime/server/sf.c:84-104 | any count word, values of the declared types and any bytes behind them reach the handler, with those values, and the reader ends behind them |
| ServerFunctions.ServedIff | runtime/server/sf.c:84-104 | a body reaches the handler if and only if it has that form |
| ServerFunctions.CountIgnored | runtime/server/sf.c:90-97 | the outcome for a body does not depend on its count word |
| ServerFunctions.DocumentedIff | docs/server-functions.md:47-66 | a served body decodes exactly if and only if its count is right and nothing follows the values, where the reader ends |
| ServerFunctions.WrongCountServed | runtime/server/sf.c:90-97 | a body with a wrong count and a stray byte is served |
| ServerFunctions.EncodeReply | runtime/server/sf.c:105-148 | the written reply is the success byte and the encoded value, or the failure byte and the message block; without memory for the value, status 500 and its text |
| ServerFunctions.ValueArrives | runtime/client/sf.c:147-219 | every returned value reaches the callback unchanged, a C string of bytes other than NUL included |
| ServerFunctions.ErrorArrives | runtime/client/sf.c:147-219 | an error message survives if and only if it has at least four bytes and scratch room; shorter ones read as a network error |
| ServerFunctions.RepliesNeverOverRead | runtime/client/sf.c:147-219 | decoding a server reply never reads behind its end |
| ServerFunctions.OverReadIff | runtime/client/sf.c:147-219 | for any reply bytes, the client reads past them if and only if the message or value it is about to deliver claims more than there is |
| ServerFunctions.ValueIff | runtime/client/sf.c:147-219 | the callback gets a value if and only if the status is 200 and the reply carries it: a zero byte, a block that is skipped, a count of at least one, a type that fits, and the value's bytes |
| ServerFunctions.ErrorIff | runtime/client/sf.c:147-219 | each failure and exactly the replies it comes from: network error, bad response, type mismatch, plain error, message |
| ServerFunctions.AcceptsIff | runtime/server/sf.c:27-45 | integers and booleans pass for one another, no other types do |
| ServerFunctions.RefusedIff | runtime/server/sf.c:84-104 | a body is too short for its count word, or not of the served form |
| ServerFunctions.MessageOverRead | runtime/client/sf.c:157-164 | a message length within five bytes of the reply's length passes the source's test and is read past the end |
| ServerFunctions.Accumulate | runtime/client/sf.c:147-219 | the shift-and-or loop computes the little-endian 64-bit value |
| ServerFunctions.DecodeReply | runtime/client/sf.c:147-219 | the branching decoder computes the specified outcome for any reply bytes: a value exactly for a reply of status 200 that carries it, a network error exactly for another status or a short reply |
| ServerFunctions.SfClient.PutBlock | runtime/client/sf.c:71-95 | a block that does not fit marks the frame as overflowing, otherwise tag, length and bytes are appended |
| ServerFunctions.SfClient.PutArg | runtime/client/sf.c:40-95 | advances the fill level as the source does, appends exactly the argument's encoding while that fits, and writes past the buffer exactly for a fixed-size argument without room |
| ServerFunctions.SfClient.SubmitRaw | runtime/client/sf.c:125-145 | shifts the body up by four overlapping bytes, inserts the count and takes the first free slot; fails exactly on overflow or with no free slot |
| ServerFunctions.SfClient.Call | runtime/client/sf.c:28-145 | a whole stub call, for any arguments: refused exactly when the frame exceeds 32768 bytes or no slot is free, otherwise the body holds exactly the frame; a byte is written past the buffer exactly when some fixed-size argument ends past it |
| ServerFunctions.RunLenIs | runtime/client/sf.c:35-95 | the fill level is the length of the encoding while that fits and past the maximum from then on |
| ServerFunctions.StringThenWordOverruns | runtime/client/sf.c:35-81 | a string that does not fit followed by an integer writes past the buffer |
| ServerFunctions.SfClient.OnReply | runtime/client/sf.c:147-219 | a reply frees its slot, and the callback gets a value exactly when the status is 200 and the reply carries it for the type that slot waits for |
| CallUrl.UrlRightIff | runtime/client/sf.c:97-112 | with room in scratch, the host is handed the call's URL if and only if the id is below 1000, whatever the body |
| CallUrl.CopyRepeats | runtime/client/env.c:14-19 | copying a string upwards onto its own end repeats its first sixteen bytes |
| CallUrl.Scratch.ScratchAlloc | runtime/client/env.c:139-149 | blocks are rounded up to eight bytes and refused when the region is used up |
| CallUrl.Scratch.SfUrlFor | runtime/client/sf.c:97-112 | leaves prefix, digits and terminator from the block's start on, past its end for long ids |
| CallUrl.Scratch.PostCall | runtime/client/dom.c:322-337 | building, copying and measuring as the source does, the host reads the right URL exactly for ids below 1000 |
| CallTable.OneCallbackOrStranded | runtime/client/sf.c:125-151 | in every run each accepted call is answered once, or on its way, or stranded, never two of these; with nothing on its way the answered calls are exactly those not stranded |
| CallTable.StrandedIff | runtime/client/dom.c:312-325 | an accepted call is stranded, however the run goes on, if and only if no fetch was free when it was submitted |
| CallTable.StrandedKeepsSlot | runtime/client/sf.c:138-140 | a stranded call keeps its pending slot in every continuation |
| CallTable.SubmitEffect | runtime/client/sf.c:125-145 | a call is accepted if and only if a slot is free; it is then on its way, or stranded if no fetch is free |
| CallTable.ReportEffect | runtime/client/dom.c:376-387 | the report of a call's fetch answers that call, frees its slot and the fetch, and touches no other call |
| CallTable.Tables.SubmitCall | runtime/client/sf.c:125-145 | first free slot, then first free fetch; refused exactly without a slot |
| CallTable.Tables.FetchDone | runtime/client/dom.c:376-387 | frees the fetch, then the call's slot, and answers that call; a report for a free fetch is ignored |
| WorkerPool.PushAppends | runtime/server/worker.c:56-83 | pushing into a ring with room appends to its contents, whatever the wrap |
| WorkerPool.PopRemoves | runtime/server/worker.c:85-104 | popping removes the oldest entry |
| WorkerPool.PoolAccounting | runtime/server/worker.c:56-150 | in every run jobs are taken in submission order, submitted minus drained is job count plus busy workers plus completions, and no request runs more often than it was submitted |
| WorkerPool.ExactlyOnePlace | runtime/server/worker.c:56-150 | in every run without an overwrite each submitted request is in exactly one of job ring, a worker's hands, completion ring, drained |
| WorkerPool.ShutdownRunsEverything | runtime/server/worker.c:128-162 | once all workers have exited, every submitted request was taken and ran exactly once |
| WorkerPool.SubmitIff | runtime/server/worker.c:56-72 | a submit is accepted if and only if there is room and no shutdown; a refused one changes nothing |
| WorkerPool.ShutdownRefuses | runtime/server/worker.c:152-154 | from the start of a shutdown on, in every run, every submit is refused |
| WorkerPool.ShutdownCanFinish | runtime/server/worker.c:128-162 | from every reachable state of a shutdown some steps of the workers alone end with all of them exited |
| WorkerPool.BoundedNeverOverwrites | runtime/server/worker.c:74-83 | runs that keep submitted minus drained within the completion capacity never overwrite a completion |
| WorkerPool.OverwriteIffOverCommitted | runtime/server/worker.c:60-83 | worker steps alone can overwrite an undrained completion if and only if jobs, busy workers and completions together exceed the completion capacity |
| WorkerPool.OverwriteReachable | runtime/server/worker.c:74-83 | from every over-committed state some schedule of the workers overwrites one |
| WorkerPool.SubmitOverCommits | runtime/server/worker.c:56-72 | submit's own check lets every pool get over-committed |
| WorkerPool.CompletionLost | runtime/server/worker.c:56-96 | with one worker and capacity one, two accepted requests lead to one drained twice and one never |
| WorkerPool.Pool.TrySubmit | runtime/server/worker.c:56-72 | accepts exactly when not shut down and the job ring has room, and then pushes |
| WorkerPool.Pool.Take | runtime/server/worker.c:128-150 | takes the oldest job |
| WorkerPool.Pool.PushCompletion | runtime/server/worker.c:74-83 | pushes without looking at the room |
| WorkerPool.Pool.DrainCompletions | runtime/server/worker.c:85-126 | drains all completions in order and empties the ring |
| LinkedLists.PushFrontChain | runtime/server/http.c:573-578 | linking at the head keeps the doubly linked list well formed and puts the connection first |
| LinkedLists.BypassChain | runtime/server/http.c:69-76 | unlinking any member, head included, keeps the list well formed and removes exactly that member |
| LinkedLists.BypassFrame | runtime/server/http.c:69-76 | unlinking changes no links of connections outside the list |
| Connections.FinalizeInv | runtime/server/http.c:78-96 | finalizing a settled connection unlinks it, recycles it or frees it, and keeps the invariant |
| Connections.CloseAndFreeInv | runtime/server/http.c:116-130 | closing keeps the invariant, whether or not it was closing already |
| Connections.AcceptInv | runtime/server/http.c:552-600 | accepting keeps it on every path: initialisation refused, accept refused, over the limit, linked |
| Connections.SweepInv | runtime/server/http.c:602-616 | so does a deadline sweep over the active list |
| Connections.OpenSseInv | runtime/server/sf.c:221-257 | so does opening an event stream, if its first write fails too |
| Connections.TeardownSafe | runtime/server/http.c:69-130 | in every run of accepts, writes, callbacks, closes and sweeps: pending writes equal the writes in flight, a connection is closed at most once and finalized at most once, only after its close callback and with no write in flight, the count is the length of a well-formed list, and the event-stream list holds only active connections that are not closing |
| Connections.ClosingIsOwed | runtime/server/http.c:98-114 | in every run a closing connection that is still in the list waits for its close callback or a write; none is forgotten |
| Connections.OwedIsActive | runtime/server/http.c:98-114 | a connection with a write in flight is never recycled; only one whose accept failed gets its close callback outside the list |
| ConnectionEffects.CloseEffect | runtime/server/http.c:116-130 | a close takes effect at once: closing, its callback due, off the event-stream list, still linked; the other connections stay as they are |
| ConnectionEffects.FailureCloses | runtime/server/http.c:200-230 | a failed, refused or impossible write and a vanished peer close an open connection, and only it |
| ConnectionEffects.CallbackConsumed | runtime/server/http.c:200-338 | each callback uses up what was owed: one write fewer in flight, or no close callback due |
| ConnectionEffects.AcceptEffect | runtime/server/http.c:552-600 | an accepted connection is the first of the list, with nothing sent - unless the list is longer than the limit: then it gets one reply that closes it, or is closed at once |
| ConnectionEffects.PoolReused | runtime/server/http.c:50-58 | a new connection is the one pooled last, a new allocation only when none is pooled |
| ConnectionEffects.FailedAcceptEffect | runtime/server/http.c:561-571 | an accept that failed adds nothing to the list: pooled without a stream, closed otherwise |
| ConnectionEffects.SweepEffect | runtime/server/http.c:602-616 | a sweep closes exactly the connections whose deadline has come |
| ConnectionEffects.OpenSseEffect | runtime/server/sf.c:221-257 | a stream request with both writes queued puts the connection first on the event-stream list; with either failing it is closed |
| ConnectionEffects.ReloadEffect | runtime/server/http.c:340-344 | a reload sends every open client of the list one event, or closes it, and touches no other |
| Connections.EventLoop.Unlink | runtime/server/http.c:69-76 | the four pointer updates are the list removal |
| Connections.EventLoop.RecycleConn | runtime/server/http.c:60-67 | goes to the pool below its bound, else is freed |
| Connections.EventLoop.FinalizeConn | runtime/server/http.c:78-96 | refines the finalization step |
| Connections.EventLoop.MaybeFinalizeConn | runtime/server/http.c:108-114 | finalizes exactly when closing, closed and without pending writes |
| Connections.EventLoop.CloseAndFreeConn | runtime/server/http.c:116-130 | refines the closing step |
| Connections.EventLoop.SweepDeadlines | runtime/server/http.c:608-616 | the pointer walk closes exactly what the sweep over the list closes |
| Arena.BlocksNeverOverlap | runtime/shared/arena.c:23-65 | in every run of allocations and resets all blocks since the last reset are aligned, inside one chunk and pairwise disjoint, and the total is the sum of the chunk capacities |
| Arena.ResetIsFresh | runtime/shared/arena.c:103-114 | after any run, a reset arena is the freshly initialised one |
| Arena.InsideIff | runtime/shared/arena.c:49-63 | a block handed out lies inside its chunk if and only if padding and size do not wrap |
| Arena.WrappedRequestFits | runtime/shared/arena.c:49-63 | a request of eight bytes less than the address range fits an empty chunk at 16-byte alignment |
| Arena.GrantedIff | runtime/shared/arena.c:33-65 | at 8-byte alignment a request gets its block if and only if the current chunk has room, or it is at most 4 MiB, within the cap, and the system has a chunk; the flag goes up exactly on a refusal |
| Arena.CapPassedIff | runtime/shared/arena.c:33-63 | at 8-byte alignment an allocation takes the total past the hard cap if and only if the current chunk is too small, the request itself is within the cap, and the chunk granted for it is larger than what is left |
| Arena.LimitAttained | runtime/shared/arena.c:33-63 | for every hard cap of 65 bytes or more some run of two allocations attains the limit, which is over the cap |
| Arena.TotalStaysNearCap | runtime/shared/arena.c:33-63 | with a hard cap H, in every run, the total never exceeds the smaller of 3(H-1) and H-1 plus 4 MiB, unless the first chunk (at least 64 bytes, and never checked) is over the cap; then it stays alone |
| Arena.GrowsAtMostOnce | runtime/shared/arena.c:49-65 | an 8-byte aligned request of up to 4 MiB adds at most one chunk |
| Arena.OversizeFails | runtime/shared/arena.c:33-63 | a request over 4 MiB (below 2^63, so that no sum wraps) that does not fit the current chunk always fails and sets the flag |
| Arena.GrowthsBounded | runtime/shared/arena.c:49-63 | a request whose sums do not wrap grows the arena at most H minus total times |
| Arena.Arena.GrowBy | runtime/shared/arena.c:33-47 | refines the growth step |
| Arena.Arena.AllocAligned | runtime/shared/arena.c:49-63 | the loop refines allocation on values |
| Arena.Arena.ResetChunks | runtime/shared/arena.c:103-114 | keeps the head chunk only, empty, and clears the flag |
| ResponseBuffer.NoSilentTruncation | runtime/server/worker.c:109-124 | for every sequence of writes, resets and other allocations: below status 500 the response is the handler's status with all writes since the last reset if and only if the arena's flag is down and something was written or the status is 300 or more; with the flag up it is 500 with the limit text or nothing, and no headers; with nothing written below 300 it is 500 with the empty-response text or nothing; from 500 on it is what the buffer holds |
| ResponseBuffer.ReplacedWholeOrEmpty | runtime/server/worker.c:109-121 | a replacement text is missing only if the arena refused a block |
| ResponseBuffer.PutWholeOrRefused | runtime/server/util.c:63-85 | a write takes its bytes whole, or the arena refused a block for them, its flag is up and the buffer is as before |
| ResponseBuffer.WBuf.Drain | runtime/server/worker.c:109-121 | the drain on the buffer itself sends a response that is right in that sense |
| ResponseBuffer.RunComplete | runtime/server/util.c:63-85 | at any moment the buffer holds all writes since the last reset or the arena's failure flag is up |
| ResponseBuffer.WBuf.Grow | runtime/server/util.c:63-72 | refines doubling with a possibly failing copy |
| ResponseBuffer.WBuf.PutN | runtime/server/util.c:74-79 | appends the bytes or, without room, nothing |
| BumpHeap.AllocFacts | runtime/client/env.c:99-118 | an allocation whose rounded size and new heap top do not wrap hands out the bytes from the old heap top on, within memory and 64 pages, or changes nothing |
| BumpHeap.AllocSoundIff | runtime/client/env.c:99-118 | a block handed out is memory of its own if and only if neither sum wraps; a heap top that wraps is never refused |
| BumpHeap.GrantedIff | runtime/client/env.c:99-118 | a request that does not wrap is granted if and only if it ends within the mapped memory, or within 64 pages and within what the engine adds; no more pages are added than it needs, and a refusal changes nothing |
| BumpHeap.AlignedIff | runtime/client/env.c:93-97 | in every run all blocks are 16-byte aligned if and only if the linker's base is |
| BumpHeap.HeapSafe | runtime/client/env.c:93-172 | in every run of allocations, sticky allocations and rewinds whose sums do not wrap, floor, heap top and end stay ordered and bounded, and no block overlaps a sticky block ever handed out or an ordinary one since the last rewind |
| BumpHeap.WrappedTopOverlaps | runtime/client/env.c:111-118 | a run whose third request wraps the heap top: the fourth block lies inside a sticky one |
| BumpHeap.StickyProtectedIff | runtime/client/env.c:158-166 | a sticky block handed out lies with the heap top at or below the floor if and only if it has at least one byte and neither its rounded size nor the new heap top wraps |
| BumpHeap.EmptyStickyReused | runtime/client/env.c:158-172 | an empty sticky block is handed out again after a rewind |
| BumpHeap.ClientHeap.HeapGrow | runtime/client/env.c:99-109 | refines page-wise growth up to 64 pages |
| BumpHeap.ClientHeap.AllocBlock | runtime/client/env.c:111-118 | refines allocation |
| BumpHeap.ClientHeap.HeapRewind | runtime/client/env.c:168-172 | back to the floor, or to the base without one |
| Sha256.Context.ShaBlock | runtime/shared/sha256.c:17-41 | the 64-round loop over the schedule array is the compression function of section 6.2.2 of FIPS 180-4 |
| Sha256.Context.Update | runtime/shared/sha256.c:53-67 | after feeding any bytes the context represents the whole message so far |
| Sha256.Context.Final | runtime/shared/sha256.c:69-87 | returns the digest of the padded message; the byte-wise padding ends |
| Sha256.HashParts | runtime/shared/sha256.c:43-94 | however a message under 2^61 bytes is cut into updates, the digest is that of the whole message |
| Sha256.FoldSplit | runtime/shared/sha256.c:53-67 | folding blocks can be interrupted at any block boundary |
| Sha256Constants.KIsRoots | runtime/shared/sha256.c:4-13 | the round constants are the first 32 bits of the fractional parts of the cube roots of the first 64 primes (section 4.2.2 of FIPS 180-4) |
| Sha256Constants.IVIsRoots | runtime/shared/sha256.c:43-51 | the initial value comes from the square roots of the first eight (section 5.3.3 of FIPS 180-4) |
| Sha256Constants.LengthBytesBack | runtime/shared/sha256.c:69-87 | the padding's length is big-endian |
| Sha256Constants.WordBytesBack | runtime/shared/sha256.c:17-41 | words are read and written big-endian |
| RouteText.RouterInit | runtime/server/router.c:38-66 | each entry of the table built at startup keeps method and handler, and matches and captures what the first 24 pieces of its route's text say |
| RouteText.MatchOnText | runtime/server/router.c:31-119 | a route matches if and only if, up to the first piece `*name`, each piece starts with `:` or equals its segment up to case, and without such a piece the counts agree |
| RouteText.CapturesOnText | runtime/server/router.c:31-156 | it captures the segment of each piece `:name` in order, then the joined rest for `*name` if there is one |
| RouteText.SplitExact | runtime/server/router.c:76-90 | a path's segments hold no slash and joined are the path without its first and last slash |
| RouteText.ServesIff | runtime/server/router.c:159-164 | an entry serves its own method, and GET serves HEAD |
| RouteText.BitIff | runtime/server/router.c:165-174 | an entry adds to the mask exactly the bit of its method's name |
| RouteText.LiteralRouteServesItselfIff | runtime/server/router.c:38-66 | a route none of whose pieces starts with `:` or is a star with a name serves its own path if and only if it has at most 24 segments |
| RouteText.InitAndLookup | runtime/server/router.c:38-177 | startup and lookup together answer what the text of the table says: the first route matching path and method with its captures, else exactly the methods of the routes matching the path, else nothing |
| Router.EqFoldIff | runtime/shared/str.c:163-171 | equal up to case means the same length and at each place the same byte or the two forms of one ASCII letter |
| Router.StrCaseEq | runtime/shared/str.c:163-171 | compares up to ASCII case |
| Router.SplitJoin | runtime/server/router.c:76-90 | joining slash-free pieces and splitting again gives the pieces |
| Router.SplitPath | runtime/server/router.c:76-90 | the in-place split leaves exactly the path's segments as C strings at the returned offsets, or reports too many |
| Router.MatchSegs | runtime/server/router.c:108-119 | the segment loop decides the match of pattern and request |
| Router.CaptureParams | runtime/server/router.c:120-156 | stores exactly the captures in order, at most sixteen |
| Router.JoinFrom | runtime/server/router.c:124-146 | a catch-all gets the remaining segments joined by slashes |
| Router.Find | runtime/server/router.c:95-177 | returns the first entry matching path and method (GET serving HEAD); mismatch if and only if only paths match, with exactly the union of their methods |
| Router.AnswerUnique | runtime/server/router.c:95-177 | that specification leaves one answer |
| Router.CapturesRebuild | runtime/server/router.c:95-177 | captures put back into the pattern rebuild the request's segments up to literal case |
| Router.MatchRebuilds | runtime/server/router.c:95-177 | the stored captures of a returned route do so if and only if there were at most sixteen |
| Router.Lookup | runtime/server/router.c:95-177 | copy, in-place split and table scan together answer as specified for the path's segments; over 64 segments nothing matches |
| Layouts.UpIsAncestors | cli/build.c:230-250 | the slash-by-slash walk visits exactly the ancestors, root included |
| Layouts.TextInjective | cli/build.c:220-228 | comparing directory texts is comparing directories |
| Layouts.ChainIsLayoutsAbove | cli/build.c:230-256 | for a route whose directory text has at most 254 characters, in any tree, the stored chain is the layouts of exactly the ancestors, root first, if and only if no directory beyond the 64 innermost has a layout |
| Layouts.DeepRouteLosesRoot | cli/build.c:230-256 | 64 nested directories, within the buffers, lose the root's layout |
| Layouts.FindsRightIff | cli/build.c:220-228 | a directory is looked up rightly in every tree of layouts if and only if its text has at most 254 characters |
| Layouts.SiblingsCollide | cli/build.c:220-228 | two siblings below a directory of 254 characters share their layouts |
| Layouts.ComputeChain | cli/build.c:230-256 | the two loops compute that chain |
| Layouts.EvalRoute | cli/build.c:376-395 | wrapper number k evaluates to the k innermost layouts nested around the page |
| Layouts.HandlerNestsLayouts | cli/build.c:376-405 | the handler in the table of such a route renders the layouts of exactly the ancestor directories, root outermost, around its page, under that same condition, which every route less than 64 levels deep meets |
| Layouts.FileWellFormed | cli/build.c:376-395 | the generated file defines each function once and calls only functions defined above |
| Layouts.Generate | cli/build.c:230-405 | from any scanned layouts and routes to the file: well formed, and the listed handler of each route with a directory text of at most 254 characters renders its ancestors' layouts under that condition |
| Layouts.GenRoutes | cli/build.c:357-405 | the emitting loops write that program and table |
| Search.Find | runtime/server/util.c:90-98 | finds the leftmost occurrence at or after a position, never an empty needle |
| Search.StrStr | runtime/client/env.c:219-228 | the nested pointer loops find the leftmost occurrence |
| Search.PlacedIsFirst | runtime/client/env.c:219-228 | text followed by a marker that overlaps itself nowhere has its first occurrence there exactly when the text does not contain it |
| Escape.EscapedByte | runtime/shared/str.c:4-44 | the replacement of each byte, in characters |
| Escape.EscapedConcat | runtime/shared/str.c:4-44 | escaping goes byte by byte |
| Escape.UnescapeInverts | runtime/shared/str.c:4-44 | reading the entities back gives the input |
| Escape.EscapedIsInert | runtime/shared/str.c:4-44 | escaped text holds no angle bracket and no quote, and every ampersand starts one of the five entities |
| Escape.EscapedLength | runtime/shared/str.c:31-43 | the length query is the length of the escaped text |
| Escape.EscapeInto | runtime/shared/str.c:8-30 | the buffered form writes the escaped text and its terminator if and only if they fit, and nothing behind the buffer's capacity |
| Escape.WbufEscape | runtime/server/render.c:77-95 | the run-flushing form appends the same text unless the arena failed |
| PageTitle.SpanIff | runtime/server/render.c:181-190 | the title's place is behind the first opening tag, up to the first closing tag behind it |
| PageTitle.SpliceKeepsSpan | runtime/server/render.c:181-205 | text without an angle bracket becomes the contents of the first title element, which stays where it was found; nothing else changes |
| PageTitle.TitleShown | runtime/server/render.c:171-205 | the spliced title reads back as the given title, everything around it is untouched |
| PageTitle.LastTitleWins | runtime/server/render.c:181-205 | applying titles in turn is applying the last; applying twice is applying once |
| PageTitle.UntouchedWithoutTitle | runtime/server/render.c:181-190 | there is no such place, and the document is unchanged, if and only if the two tags do not occur in order |
| PageTitle.SplicedOrFlagged | runtime/server/render.c:181-205 | a title is lost only when the arena refused the new document, with its flag up |
| PageTitle.Page.SetTitle | runtime/server/render.c:171-179 | the block sized by the length query always takes the escaped title |
| PageTitle.Page.ApplyPageTitle | runtime/server/render.c:181-205 | the two searches and three copies are the splice |
| PageMarkers.ExtractBetween | runtime/client/hydrate.c:82-92 | offset and length lie between the first start marker and the first end marker behind it |
| PageMarkers.ExtractedIff | runtime/client/hydrate.c:82-92 | the page found is the text between the first start marker and the first end marker behind it, and (0, 0) exactly without them |
| PageMarkers.ExtractsBody | runtime/client/hydrate.c:82-92 | extraction returns exactly the page the generated wrapper enclosed if and only if nothing before it holds the start marker and the page does not hold the end marker |
| UrlEncoded.DecodingInverts | runtime/shared/str.c:53-76 | decoding inverts every percent-encoding (section 2.1 of RFC 3986) of every byte string, plus signs for spaces included |
| UrlEncoded.DecodedIsEncoding | runtime/shared/str.c:53-76 | whatever decodes is a percent-encoding of its result; malformed and truncated escapes do not decode |
| UrlEncoded.HexValIff | runtime/shared/str.c:46-51 | a digit in either case stands for its place in the row of hexadecimal digits |
| UrlEncoded.PairsOfText | runtime/shared/str.c:78-105 | the pair list on the text: the fields between ampersands, each cut at its first equals sign (without one the value is empty) and decoded, up to the first that fails; a last empty field is none |
| UrlEncoded.EveryStringEncodes | runtime/shared/str.c:46-76 | every byte string has an encoding that decodes to it |
| UrlEncoded.UrlDecode | runtime/shared/str.c:53-76 | the in-buffer loop decodes if and only if the text is well formed and fits with its terminator |
| UrlEncoded.QueryNext | runtime/shared/str.c:78-105 | produces the next pair, the end or an error, with the new position |
| UrlEncoded.QueryPairs | runtime/shared/str.c:78-105 | iterated until it stops, it gives the pair list; the position grows with every pair |
| UrlEncoded.FormParse | runtime/server/req.c:153-189 | the bounded walk gives the same pair list on any body |
| UrlEncoded.FormRoundTrip | runtime/server/req.c:153-189 | every encoding of a list of pairs that fits the buffers is read back as that list |

## Left out

- Browser details: which tag and attribute names beyond plain ASCII ones the browser refuses, UTF-8 decoding of strings, the `'value' in el` test, reflection between the class attribute and `classList`, event listener objects; event types that name a property every JavaScript object has; appending an element below itself, which the browser refuses and no client call asks for.
- Signals.BindingsTrack: runs in which the browser throws end the claim; the code then keeps the failed batch in its buffer.
- DOM stream across page navigation: the command buffer is ordinary heap memory, so the stream properties end at a heap rewind; a failed allocation of the buffer is not modelled.
- Connections.EventLoop: connections are records addressed through maps rather than heap objects, so aliasing between a freed and a reused address is modelled by the record alone.
- Finalization waiting for workers: the phase test in `conn_maybe_finalize` compares with a value that no modelled code assigns, so nothing is claimed from it.
- Connections.TeardownSafe: a connection whose accept failed is closed but never finalized by the code; it is kept apart and no recycling is claimed for it.
- Keep-alive, pipelining, request parsing, read buffers, graceful shutdown and the request statistics.
- WorkerPool: wake-ups and fairness, thread creation, and a queue capacity of zero.
- ServerFunctions.SfClient.Call: what lies behind the buffer that an overrun writes to; strings and byte blocks are shorter than 2 GiB, the largest object on a 32-bit target.
- ServerFunctions.ValueArrives: string results with an inner NUL byte end at it on the client, so they are excluded; doubles are 64-bit patterns.
- The fetch transport between client and server and its size limits. A fetch is reported once; the browser's second report after a callback that threw is not modelled.
- CallUrl.UrlRightIff: scratch without room for both strings.
- ServerFunctions.EncodeReply: the growing output string silently drops what it has no memory for.
- Arena.BlocksNeverOverlap: a failed first chunk and an out-of-memory handler that aborts; sizes whose sums wrap are excluded, `InsideIff` says what happens to them; alignment is rounding up to a multiple; addresses end at 2^63.
- BumpHeap.HeapSafe: requests whose sums wrap and sticky requests of zero bytes are excluded; `AllocSoundIff` and `StickyProtectedIff` say what happens to them. Initial memory of exactly 4 GiB is not modelled.
- ResponseBuffer.NoSilentTruncation: bytes held in memory are counted without bound, so doubling past the range of `size_t` is not modelled; the title and script splices happen after it; the title splice is in `PageTitle`.
- Sha256: the six logical functions of section 4.1.2 of FIPS 180-4 are transcribed, with nothing to compare them with.
- Router: failed allocations while building the table, and path bytes of value zero.
- Layouts: symbol names, directory scanning, and text output; layout functions are assumed to call their child once.
- UrlEncoded.FormParse: running out of arena memory while the list is built; lookup by name in the list.
- Query lookup end to end: the stored query string has been decoded once already before the walker decodes it again.
- `config.c`, JSON strings, `printf`-style writers, MIME tables, logging, statistics pages, and the command line tool's build steps: they would add only easy members or are input and output.
