# A verified model of the X11 input daemon

`xtest-server` injects keyboard, mouse and window events into one X display. Its destination
transport serves up to ten local clients at a time, each with a table of the keys and buttons it
holds; all of them share one backend that keeps generations of the window list, and every X call
goes through one owner thread. Beside it sits a legacy line protocol over TCP or WebSocket. This
project models both in Dafny and proves what their runs can and cannot do.

| file | content |
|---|---|
| `Words.dfy` | machine words, exclusive-or of bytes, left folds |
| `Fnv.dfy` | the 64-bit FNV-1a sum of a client list |
| `Generations.dfy` | window references and observation generations; the shipped fake as a specification |
| `OwnerQueue.dfy` | the owner thread's job queue, for any owned state and any kind of job |
| `DestRuns.dfy` | the generation protocol run through the owner queue |
| `Holds.dfy` | any number of connections over one display, step by step |
| `Requests.dfy` | decoding of requests from JSON members |
| `Dispatching.dfy` | the call sequences a request may make, and what follows from them |
| `Live.dfy` | what requests do against a given X server and given other connections, over a whole connection |
| `DestServer.dfy` | the live backend, the session tables and the request loop, as imperative code |
| `Refinement.dfy` | the request code, interleaved in any way, is a run of the machine in `Holds.dfy` |
| `WebSocket.dfy` | the frame codec, per sections 5.2, 5.3 and 5.5 of RFC 6455 |
| `Decimal.dfy`, `Legacy.dfy` | numerals and the legacy commands |
| `Allowlist.dfy`, `Framing.dfy` | peer admission; line framing and the four-byte peek |

## How it is modelled

* Concurrency is a transition system: a step that is not enabled leaves the state as it is, so a
  theorem over every sequence of steps is a theorem over every interleaving. One goroutine drives
  each session (`cmd/xtest-server/dest.go:467-492`), which is why a connection is one program counter.
* A failed X call leaves the display unchanged (`cmd/xtest-server/x11.go:106-111`). What the jobs of a
  connection meet is a function of their number: all answers of the X server, and the jobs that other
  connections have run on the shared counters since. So failures, changes of the display and jobs of
  other connections can come at any point of the code in `DestServer.dfy`; the theorems of `Live.dfy`
  hold for every such function. The steps of other connections on the same display are the subject of
  `Holds.dfy` and `Refinement.dfy`.
* Exclusive-or is defined bit by bit on integers; a mask, a shift or a nibble of a byte is written as
  division and remainder. Wrap-around modulo 2^64 and truncation to 32 bits are written out.
* Go's map iteration order is an arbitrary choice.
* The list sum 0 is the code's own mark for "nothing observed yet". `VouchesIffNonzero` proves that
  references keep their promise exactly when the stored sum is not 0, and `ZeroSumRefSurvivesChange`
  gives a real two-window list that stores 0 and a reference that outlives a change of the list.

Where code and documentation differ, the model follows the code: a sweep of the legacy transport
leaves buttons other than 1 to 3 as they were (`SweepClears`); the client library takes a line of
exactly 1 MiB, which the server's scanner refuses (`AllArriveIffShort`, `MaximalLineIsRefused`); a
ping that gives its length in an extended form is answered with bytes that are no pong with its
payload (`PongIsWellFormed`, `ExtendedPingIsMisanswered`); a WebSocket text that is larger than the scanner's
buffer of the moment is cut, the first one at 64 KiB (`FirstTextIsCut`); an unknown key name is answered
`InvalidRequest` after a lookup on the backend, which is the only way in which an invalid line
reaches it (`InvalidReachesBackendIffUnknownKey`, `UnknownKeyIsLookedUp`). A session's table is no
lower bound of the display (`SharedKeyCanBeLifted`); `HeldIsUpIffLiftedByAnother` says exactly when.

## Model

| member | source | states |
|---|---|---|
| Words.XorUndo | cmd/xtest-server/ws.go:146-150 | exclusive-or with the same byte twice is the identity, for all bytes |
| Words.XorBitsBit | cmd/xtest-server/ws.go:146-150 | a bit of an exclusive-or is set if and only if exactly one of the two bits is |
| Fnv.FeedInjectiveInState | cmd/xtest-server/dest.go:235-241 | hashing one window id is injective on the 64-bit state, so no suffix of a list merges two different states |
| Fnv.SmallCombination | cmd/xtest-server/dest.go:235-241 | the base-prime combination of four small byte corrections is 0 modulo 2^64 only if all four are 0 |
| Fnv.FeedInjectiveInXid | cmd/xtest-server/dest.go:235-241 | from one state, different window ids always lead to different states |
| Fnv.ReplacingOneChangesSum | cmd/xtest-server/dest.go:235-241 | replacing exactly one window of any list by a different one always changes the sum |
| Fnv.ZeroSumList | cmd/xtest-server/dest.go:183-193 | a concrete list of two windows has the sum 0, the sentinel value |
| Fnv.NonzeroListWith | cmd/xtest-server/dest.go:183-193 | every window is in some list with a non-zero sum |
| Fnv.HashList | cmd/xtest-server/dest.go:183-189 | the hashing loop, through its four-byte buffer, computes the sum of the whole list |
| Generations.AcceptedIff | cmd/xtest-server/dest.go:220-269 | a recheck accepts if and only if the list can be read and has the stored sum, the generations are current, the window is listed, and its class and pid are the expected ones where any are expected; unavailable if and only if the list cannot be read |
| Generations.GenerationCountsChanges | cmd/xtest-server/dest.go:189-193 | after any run of inspects and revalidations the generation is 1 plus the adjacent changes of the observed sum, less the changes away from a zero sum |
| Generations.GenerationIsExact | cmd/xtest-server/dest.go:242-247 | it counts every change if and only if no observed zero sum was followed by a non-zero one |
| Generations.GenerationNeverDecreases | cmd/xtest-server/dest.go:242-247 | over any jobs from any state the generation never decreases |
| Generations.StaleStaysRejected | cmd/xtest-server/dest.go:242-250 | a reference that has fallen behind is rejected in every later state, whatever the list |
| Generations.SameGenerationIsQuiet | cmd/xtest-server/dest.go:242-250 | from a non-zero stored sum, an unchanged generation means every observation saw that very sum |
| Generations.AcceptedRefIsCurrent | cmd/xtest-server/dest.go:220-269 | an accepted reference: same sum at issue, at every observation between and now; window listed; expected class and pid match |
| Generations.VouchesIffNonzero | cmd/xtest-server/dest.go:242-250 | references of a state keep that promise over every continuation if and only if the stored sum is not 0 |
| Generations.ZeroSumRefSurvivesChange | cmd/xtest-server/dest.go:242-250 | the failing case exists: an inspected list with sum 0 whose reference is accepted against a list with another sum |
| Generations.ReplacementInvalidates | cmd/xtest-server/dest.go:235-250 | replacing one window between two observations adds one to the generation and rejects every earlier reference for good |
| Generations.FirstMatchInSnapshot | internal/vnext/fake.go:140-152 | the fake's search by first match is listing plus matching class and pid |
| Generations.LiveAgreesWithFake | internal/vnext/fake.go:125-153 | on an unchanged list the live verdict equals the fake's, exactly unless the reference has id 0, is current, and a window 0 is listed with the expected class and pid |
| OwnerQueue.RunIsSequential | cmd/xtest-server/dest_owner.go:17-46 | every interleaving leaves the state of the sequential run of its jobs in queue order |
| OwnerQueue.AnswersAreLinearizable | cmd/xtest-server/dest_owner.go:17-46 | in every interleaving each finished job was answered as that sequential run answers it |
| OwnerQueue.JobsAreConserved | cmd/xtest-server/dest_owner.go:17-46 | submitted = finished + in the worker + queued, as sequences; one job at a time, none repeated, at most 256 queued |
| OwnerQueue.HeldUpIffFull | cmd/xtest-server/dest_owner.go:17-46 | a caller with a job to hand over is held up if and only if 256 are queued |
| OwnerQueue.CallReturnsAfterItsJob | cmd/xtest-server/dest_owner.go:36-46 | a waiting call can return if and only if the very job it asked for has finished |
| OwnerQueue.RealTimeOrder | cmd/xtest-server/dest_owner.go:17-46 | finished and submitted only grow at the end, so a finished job precedes everything submitted later |
| OwnerQueue.StepUsesWork | cmd/xtest-server/dest_owner.go:17-46 | each enabled step other than a new call uses up exactly one of the steps owed |
| OwnerQueue.NoDeadlock | cmd/xtest-server/dest_owner.go:17-46 | while steps are owed one is enabled; none are owed exactly when every caller is idle and the queue is empty |
| OwnerQueue.EveryCallReturns | cmd/xtest-server/dest_owner.go:17-46 | every schedule without new calls finishes all calls, in exactly as many steps as are owed |
| OwnerQueue.WaitIsBounded | cmd/xtest-server/dest_owner.go:17-46 | under any schedule, new calls included, a submitted job has finished if and only if more jobs finished meanwhile than were ahead of it, and at most 256 are |
| DestRuns.AcceptedInSequence | cmd/xtest-server/dest.go:164-269 | a reference with the generations of a listed window is accepted later in a sequence of jobs if and only if every list read since had that sum and the window is listed with the expected class and pid |
| DestRuns.InspectedUnderConcurrency | cmd/xtest-server/dest.go:164-218 | over every interleaving of clients through the owner queue an inspect is answered with all windows of the list in the generation of the jobs up to it, if and only if the list can be read |
| DestRuns.AcceptedUnderConcurrency | cmd/xtest-server/dest.go:220-269 | over every such interleaving a revalidation is answered with acceptance if and only if the same holds |
| Holds.StepKeepsInv | internal/vnext/session.go:21-90 | every step keeps: display and tables agree with the history of events, releases are on track, at most ten connections |
| Holds.DownIsAccountedFor | internal/vnext/session.go:21-90 | in every interleaving each input that is down is in some table or between one connection's press and its note |
| Holds.NothingLeftDown | cmd/xtest-server/dest.go:467-492 | once all connections have closed only inputs whose own clean-up failed can be down; with none failed nothing is |
| Holds.TableIsLatestPresses | internal/vnext/dispatch.go:27-46 | a table is exactly the inputs whose latest successful transition by that connection was a press; no keycode 0, buttons 1 to 3 |
| Holds.HeldIsUpIffLiftedByAnother | internal/vnext/session.go:41-90 | an input that an idle connection holds is up if and only if the latest event on it was another connection's release |
| Holds.UnsharedIsHeldIffDown | internal/vnext/session.go:21-90 | an input that no other connection has touched is held if and only if it is down |
| Holds.AtMostTenConnections | cmd/xtest-server/dest.go:398-422 | never more than ten connections at a time |
| Requests.ScanTopLevel | internal/vnext/request.go:168-203 | the scanning loop refuses exactly duplicate or unknown names and otherwise returns the names seen |
| Requests.ExtraSeen | internal/vnext/request.go:155-166 | true if and only if a seen name is not allowed |
| Requests.FillHoldsMembers | internal/vnext/request.go:85-93 | with distinct names, filling succeeds exactly when every value has its field's type and leaves exactly the members that are not null |
| Requests.AcceptedIffRequest | internal/vnext/request.go:76-140 | accepted if and only if names are distinct and allowed, values typed, an operation named, every required field present, not null and in range |
| Requests.DecodedIff | internal/vnext/request.go:76-153 | an object decodes to a request if and only if its names are distinct and its members are those of that request, each field the value given for its name; an expected class or pid left out or null is empty or 0 |
| Requests.NotSubmittedIffNoOperation | internal/vnext/request.go:137-139 | NotSubmitted if and only if an object of distinct, well-typed members names no operation |
| Requests.RejectedAsInvalid | internal/vnext/request.go:76-98 | every other rejection is InvalidRequest: what is not one object, repeated names, unknown names, values of the wrong kind or range |
| Requests.DecodeIgnoresOrder | internal/vnext/request.go:76-140 | every reordering of the members decodes to the same request or rejection |
| Requests.DecodeOfEncoded | internal/vnext/request.go:76-153 | every valid request, written out in any order, decodes to itself |
| Requests.DecodedIsValid | internal/vnext/request.go:105-153 | whatever is decoded is valid: no window id 0, buttons 1 to 3, key names non-empty and without NUL |
| Requests.LiveAgreesOnDecoded | internal/vnext/fake.go:125-153 | on every decoded reference and unchanged list the live verdict equals the fake's |
| Dispatching.RefusedLeavesNoTrace | internal/vnext/dispatch.go:5-95 | a line answered InvalidRequest, NotSubmitted or Conflict, by the decoder or by its request, made no mutating call and left the table as it was |
| Dispatching.InvalidIffUnknownKey | internal/vnext/dispatch.go:27-31 | a decoded request is answered InvalidRequest if and only if it is a key whose lookup found nothing, and never NotSubmitted |
| Dispatching.InvalidReachesBackendIffUnknownKey | internal/vnext/dispatch.go:5-14 | an invalid or unknown line reaches the backend if and only if it decodes, and then by one lookup of an unknown key name alone |
| Dispatching.UnknownKeyIsLookedUp | internal/vnext/dispatch.go:27-31 | that case exists, for every key name that decodes |
| Dispatching.WindowMutationFollowsRecheck | internal/vnext/dispatch.go:57-76 | every window mutation follows a successful recheck of the request's own reference and is on its window |
| Dispatching.NothingIsRetried | internal/vnext/dispatch.go:5-7 | no mutating call is made twice in one request |
| Dispatching.SubmittedMeansAllSucceeded | internal/vnext/dispatch.go:17-85 | Submitted means every mutating call of the request succeeded |
| Dispatching.ReleaseKeepsOnlyFailures | internal/vnext/session.go:63-90 | after a release the table is exactly the failed ups; Submitted if and only if it is empty |
| Dispatching.SecondReleaseSendsNothing | internal/vnext/session.go:41-90 | a release after a successful one sends nothing and is Submitted |
| Dispatching.ReplayIsLatestPresses | internal/vnext/dispatch.go:27-46 | a table over any calls is what was pressed last |
| Dispatching.TableStaysRequestable | internal/vnext/request.go:110-114 | no valid request brings keycode 0 or another button into a table |
| Dispatching.ConversationStaysRequestable | internal/vnext/dispatch.go:27-46 | the same over any number of requests on one connection |
| Dispatching.ExchangesInOrder | cmd/xtest-server/dest.go:473-492 | the exchanges of a served connection are those of the requests among its lines, all of them and in order |
| Dispatching.LinesAreAnswered | cmd/xtest-server/dest.go:473-492 | each line got the decoder's code if rejected, and otherwise the reply of its own exchange |
| Live.LivesInTrace | internal/vnext/dispatch.go:17-85 | whatever the X server answers, the calls that the request code makes are in the language of its request |
| Live.InputWrittenOut | internal/vnext/dispatch.go:22-46 | what a move, key or button request calls and answers, from the X server's answers alone |
| Live.InspectWrittenOut | internal/vnext/dispatch.go:47-56 | an inspect is Submitted if and only if the screen has a size and the list can be read; the reply has that width and height and every window in order with class, pid and generations |
| Live.RecheckWrittenOut | internal/vnext/dispatch.go:57-76 | a window request starts with the recheck of its reference; Conflict if and only if the list could be read and the reference was refused |
| Live.ActivateWrittenOut | internal/vnext/dispatch.go:57-68 | an accepted activation sends the client message and then the focus, each if all before succeeded, and is Submitted if and only if both did and the active window could be asked; the reply names the requested and the observed window |
| Live.FullscreenWrittenOut | internal/vnext/dispatch.go:69-76 | an accepted fullscreen request sends the one state message if both atoms are there, and its outcome is the answer |
| Live.ReleaseWrittenOut | internal/vnext/session.go:42-90 | a release sends one up for each held input and nothing else, keys first, with the X server's outcomes; Submitted if and only if all came up |
| Live.AlongAdds | cmd/xtest-server/dest.go:164-269 | over a connection the calls are those of its exchanges, and the counters those of all list-reading jobs, its own and other connections', run from the counters before |
| Live.GenerationOverConnection | cmd/xtest-server/dest.go:189-193 | from a fresh backend the generation after a connection is 1 plus the changes of the sum that those jobs saw, less the changes away from a zero sum |
| Live.AcceptedIffStillCurrent | cmd/xtest-server/dest.go:164-269 | an inspect, any exchanges and any jobs of others, then a window request with the generations of a listed window: its recheck succeeds if and only if every list read since had the (non-zero) sum of that inspect and the window is listed, with the expected class and pid |
| Live.ChangedWindowIsCurrent | internal/vnext/dispatch.go:57-76 | so a window is changed by such a reference only while all that holds |
| Live.ActivatedWindowIsCurrent | cmd/xtest-server/dest.go:467-492 | the same on the lines of a connection and the windows in its replies |
| Live.StaleIsRefusedLater | cmd/xtest-server/dest.go:242-250 | once the generation has passed a reference, no later request of the connection changes a window by it; it is answered Conflict or BackendUnavailable |
| DestServer.DestBackend.ManagedClients | cmd/xtest-server/dest.go:164-218 | lists the windows in the generation that reading the list makes; the counters become exactly those of the jobs of others and this one |
| DestServer.DestBackend.Revalidate | cmd/xtest-server/dest.go:220-269 | answers with the verdict of the protocol model on the counters that the jobs of others left, and leaves exactly the counters of that job |
| DestServer.DestBackend.WarpMouse | cmd/xtest-server/dest.go:97-112 | coordinates outside 32 bits fail without any X call; any others succeed if and only if the X server takes the event |
| DestServer.DestBackend.ActivateAlwaysBoth | cmd/xtest-server/dest.go:271-290 | client message, then focus; stops at the first one the X server fails and reports it; nothing at all without the atom; no error otherwise |
| DestServer.DestBackend.SetFullscreen | cmd/xtest-server/dest.go:292-305 | nothing without both atoms, otherwise one state message whose outcome is the answer |
| DestServer.Session.NoteKey | internal/vnext/session.go:21-29 | the table gains or loses exactly that key |
| DestServer.Session.KeyDown | internal/vnext/session.go:92-97 | true if and only if the table holds the key |
| DestServer.Session.NoteButton | internal/vnext/session.go:31-39 | the table gains or loses exactly that button |
| DestServer.Session.ButtonDown | internal/vnext/session.go:99-104 | true if and only if the table holds the button |
| DestServer.Session.SnapshotHeld | internal/vnext/session.go:49-62 | each held input once, keys before buttons, in any map order |
| DestServer.Session.Lift | internal/vnext/session.go:64-85 | one up per listed input, its outcome the X server's; deletes exactly those that succeeded; reports an error if and only if one failed |
| DestServer.Session.Release | internal/vnext/session.go:42-90 | for every order and failure pattern the calls are a release of the table with the X server's outcomes, and the table becomes their replay; counters untouched |
| DestServer.Dispatch | internal/vnext/dispatch.go:17-85 | calls, reply, counters and number of jobs are exactly those of the request against the given X server and other connections (only the order of a release is free); the table is the replay of the calls |
| DestServer.HandleLine | internal/vnext/dispatch.go:5-14 | a rejected line makes no call and gets the decoder's code; an accepted one does exactly what its request does; a missing backend or session is answered without a call; a refused line makes no mutating call and keeps the table; an invalid or unknown line makes a call if and only if it asks for a key the display does not have |
| DestServer.ServeLines | cmd/xtest-server/dest.go:473-492 | every line up to the end or to the one whose reply is lost is decoded, dispatched and answered; backend and table end exactly where that conversation leads |
| DestServer.ServeConn | cmd/xtest-server/dest.go:467-496 | the same from a new session, followed by a release; the counters go on from where they were; what its table still holds is exactly what that release failed to lift |
| Refinement.RequestRefines | internal/vnext/dispatch.go:17-85 | the calls of every valid request are a run of that connection's own steps in the interleaved machine, with the same table and events |
| Refinement.ReleaseRefines | internal/vnext/session.go:42-90 | so is every release, on request and on closing |
| Refinement.OthersDoNotInterfere | cmd/xtest-server/dest.go:467-492 | an open connection goes through exactly what its own steps alone take it through, whatever steps of others come between |
| Refinement.ConnectionRefines | cmd/xtest-server/dest.go:467-496 | a connection served from opening to closing release, interleaved in any way in any run: it ends closed, with the table and the events of its calls |
| Refinement.ConnectionCanRun | cmd/xtest-server/dest.go:398-422 | wherever a slot is free, serving a connection is a run of the machine and leaves the others untouched |
| Refinement.ServedConnectionsLeaveNothingDown | cmd/xtest-server/dest.go:467-496 | when all opened connections have been served to their end, in any interleaving, an input is down only if some connection's closing release failed on it |
| Refinement.SharedKeyCanBeLifted | internal/vnext/session.go:5-6 | a run in which a connection holds a key that another one has lifted |
| WebSocket.NextIffEncoded | cmd/xtest-server/ws.go:101-150 | a frame is taken off the stream if and only if the stream starts with its encoding and it is within the limits; the cursor stops right behind it |
| WebSocket.OpcodesOnTheWire | cmd/xtest-server/ws.go:101-168 | on the bytes: low nibble 1 delivers the payload, 8 ends the session, 9 is answered with 0x8A, the length and the payload, anything else leaves no trace |
| WebSocket.MaskOnTheWire | cmd/xtest-server/ws.go:132-150 | on the bytes: a set top bit announces four mask bytes, and payload byte i was changed by mask byte i modulo 4 |
| WebSocket.MediumOnTheWire | cmd/xtest-server/ws.go:112-117 | on the bytes: length code 126 announces a length of two bytes |
| WebSocket.LongOnTheWire | cmd/xtest-server/ws.go:118-127 | on the bytes: length code 127 announces a length of eight bytes, refused above 1 MiB |
| WebSocket.ControlOnTheWire | cmd/xtest-server/ws.go:128-130 | on the bytes: opcodes from 8 on are refused above 125 bytes |
| WebSocket.CutOffOnTheWire | cmd/xtest-server/ws.go:101-145 | on the bytes: a stream cut off within header or payload ends unexpectedly, between them plainly |
| WebSocket.StreamIsDelivered | cmd/xtest-server/ws.go:101-168 | any stream of acceptable frames before any tail: texts in order, the reply to each ping in order, other opcodes ignored, then the tail as if alone |
| WebSocket.PingsAreAnsweredIffShort | cmd/xtest-server/ws.go:157-163 | what is sent for such a stream is one pong frame per ping, in order, with the same payload, if and only if every ping gave its length in the header byte |
| WebSocket.EndOfStream | cmd/xtest-server/ws.go:155-156 | an ended stream and a close frame both end the session with an end of file, whatever follows the close |
| WebSocket.ReadStopsAtBoundary | cmd/xtest-server/ws.go:101-168 | a read of any bytes delivers a text if and only if they start with acceptable frames up to a first text: that text, the pings before it answered, and the cursor right behind it, whatever follows |
| WebSocket.BuffersLoseNothingIffTextsFit | cmd/xtest-server/ws.go:153-154 | reads through buffers of any sizes give the texts uncut and in order if and only if each text fits the buffer that meets it |
| WebSocket.FirstTextIsCut | cmd/xtest-server/ws.go:191-196 | the scanner's first buffer of 64 KiB cuts every first text beyond it, up to the limit of 1 MiB, and the rest of the text is gone |
| WebSocket.ReadsPartTheSession | cmd/xtest-server/ws.go:101-168 | the sizes decide neither pongs nor errors nor the cursor: any number of reads splits the session into what was delivered and what the rest of the stream delivers |
| WebSocket.WrittenIsReadBack | cmd/xtest-server/ws.go:170-189 | reading what Write sent gives the payload and uses up exactly its frame up to 1 MiB, and is refused above |
| WebSocket.WrittenBytes | cmd/xtest-server/ws.go:170-189 | what Write sends, byte for byte, in the three length forms |
| WebSocket.MaskIsTransparent | cmd/xtest-server/ws.go:132-150 | for every key a masked frame is read as the unmasked one |
| WebSocket.MaskedTwice | cmd/xtest-server/ws.go:146-150 | masking is its own inverse |
| WebSocket.PongIsWellFormed | cmd/xtest-server/ws.go:157-163 | the reply to a ping is a pong with its payload if and only if the ping gave its length in the header byte |
| WebSocket.ExtendedPingIsMisanswered | cmd/xtest-server/ws.go:157-163 | an extended ping whose reply is a pong with another payload |
| WebSocket.EmptyExtendedPingIsUnanswered | cmd/xtest-server/ws.go:157-163 | an extended ping whose reply is no frame |
| WebSocket.Unmask | cmd/xtest-server/ws.go:146-150 | the in-place loop computes the masking |
| WebSocket.WsConn.Read | cmd/xtest-server/ws.go:101-168 | the read loop delivers as the frame-by-frame function does, cut to the buffer, and leaves the rest of the buffer alone |
| WebSocket.WsConn.Write | cmd/xtest-server/ws.go:170-189 | appends the encoding of one final, unmasked text frame in the shortest length form |
| Decimal.AtoiOfItoa | internal/v2line/dispatch.go:34-35 | converting the canonical numeral of any 64-bit integer gives it back |
| Decimal.NumeralsAreDecimal | internal/v2line/dispatch.go:34-35 | one more digit of a numeral multiplies by ten and adds it |
| Decimal.ValuesAreDecimal | internal/v2line/dispatch.go:34-35 | so does one more digit of any digits, for their value |
| Decimal.AtoiOfDigits | internal/v2line/dispatch.go:89-130 | a sign and digits convert to their number, or to the nearest 64-bit integer with an error |
| Decimal.AtoiOfOthers | internal/v2line/dispatch.go:89-130 | anything else converts to 0 with an error |
| Legacy.HoldIsCanonical | internal/v2line/dispatch.go:28-39 | a hold is accepted if and only if it is the canonical numeral of 20 to 500 |
| Legacy.Display.ReleaseAll | cmd/xtest-server/x11.go:90-104 | the sweep over 256 keymap bits asks for an up of every key that is down and of buttons 1 to 3; no key and no button 1 to 3 is left, and nothing else changes |
| Legacy.Display.Dispatch | internal/v2line/dispatch.go:43-146 | asks the X server exactly the acts of the line and leaves down what playing them leaves; keydown, keyup, mousedown, mouseup and click written out |
| Legacy.ActsHaveNetEffect | internal/v2line/dispatch.go:59-145 | playing the acts of any line has the net effect that the run theorems speak of |
| Legacy.KeyCommandsAsk | internal/v2line/dispatch.go:60-84 | keydown presses, keyup lifts, key presses and lifts if the hold is the numeral of 20 to 500 |
| Legacy.ButtonCommandsAsk | internal/v2line/dispatch.go:92-110 | mousedown presses, mouseup lifts and click presses and lifts the button of the numeral |
| Legacy.MalformedButtonIsZero | internal/v2line/dispatch.go:92-110 | a button that is no numeral is button 0 |
| Legacy.MouseMoveAsks | internal/v2line/dispatch.go:85-91 | mousemove asks for the pointer at the converted numbers |
| Legacy.ModClickAsks | internal/v2line/dispatch.go:111-142 | modifier down, pointer, button down, button up, modifier up |
| Legacy.ModClickLeaves | internal/v2line/dispatch.go:111-142 | modclick leaves its modifier and its button up and everything else as it was |
| Legacy.OtherLinesAskNothing | internal/v2line/dispatch.go:59-145 | unknown words, missing fields and unknown keysyms ask nothing |
| Legacy.OnlyDownLinesPress | internal/v2line/dispatch.go:59-145 | every line but keydown and mousedown ends with a subset of what was down, even on malformed numbers |
| Legacy.DownIffPressedAndNotTaken | internal/v2line/dispatch.go:59-145 | after any run an input is down if and only if it was down or pressed at some point and no later line took it |
| Legacy.SweepClears | cmd/xtest-server/serve.go:59-73 | the sweep when a connection closes leaves no key and no button 1 to 3, and every other button as it was |
| Allowlist.ParseFields | internal/vnext/admission.go:94-113 | the loop of both parsers collects the ids of the non-blank fields, or fails on a bad one |
| Allowlist.JoinedIdsParse | internal/vnext/admission.go:89-151 | the comma-joined numerals of any non-empty list of ids parse back to it, as users and as groups |
| Allowlist.ListsMean | internal/vnext/admission.go:89-151 | any written list with any space around its entries means its ids in order, the process's own id where the keyword stands; blank entries are skipped and one wrong entry spoils the list |
| Allowlist.WrittenGroupsRestrict | internal/vnext/admission.go:120-151 | the empty group list, which admits any group, comes from a blank text and from nothing else |
| Allowlist.AllowPeer | cmd/xtest-server/dest.go:426-465 | admitted if and only if the user is listed, and the group too when there is a group list |
| Framing.Client.WriteLine | x11input/client.go:118-145 | succeeds exactly for one sendable command fully taken, and then put it and one newline on the wire |
| Framing.TrimTakesNewlines | x11input/client.go:123 | trimming takes all newlines at the end and nothing else |
| Framing.Client.WriteLines | x11input/client.go:115-145 | calls until the first failure put one frame per success and the taken piece of the failed line on the wire; the server's scanner makes of it exactly those lines |
| Framing.FramesAreScanned | cmd/xtest-server/serve.go:11-15 | cutting the stream of any written lines gives one line per write, in order, up to a final carriage return, until a line of the maximum length; what follows is cut as if alone |
| Framing.ScanLine | cmd/xtest-server/serve.go:11-15 | one line is delivered without its newline and one carriage return if the newline is among the first 1 MiB, and ends the scan otherwise |
| Framing.ScanLast | cmd/xtest-server/serve.go:11-15 | what is left at the end without a newline is one more line, or too long |
| Framing.AllArriveIffShort | cmd/xtest-server/serve.go:11-15 | the scanner gives one line for every write if and only if all are shorter than 1 MiB, and reports a line too long otherwise |
| Framing.UnchangedIffNoCr | cmd/xtest-server/serve.go:11-15 | the lines come back unchanged if and only if, besides, none ends with a carriage return |
| Framing.MaximalLineIsRefused | x11input/client.go:127-129 | a line that the client takes and the scanner refuses |
| Framing.ConnReader.Read | cmd/xtest-server/ws.go:87-94 | what a read returns, followed by what remains, is what remained before |
| Framing.ConnReader.ReadAll | cmd/xtest-server/ws.go:87-94 | any sequence of read sizes returns a prefix of the stream, nothing lost or repeated |
| Framing.Peek | cmd/xtest-server/ws.go:25-35 | a stream of at least four bytes is handed back whole, and is HTTP exactly when it starts with "GET " |

## Left out

- Xlib, XTEST and EWMH calls: foreign code, present only as display transitions and answers that may fail.
- Atomicity of recheck and activation: they are two jobs of the owner, other clients' jobs can run between them, and nothing is claimed across that gap.
- Wrap-around of the 64-bit generation after 2^64 changes: generations are natural numbers.
- The owner's panic path, which exits the process.
- JSON lexing, the tokeniser behind fields of a legacy line, and the buffering inside the line scanner: the models start from members, fields and bytes.
- The recording fake is a value; its call log, its active window and its other methods are not modelled.
- Window name, geometry and state in an inspect reply, clamping of the pointer to the screen, the waits between the acts of a legacy line, and the JSON of replies: no other operation depends on them.
- WebSocket fragmentation and the upgrade handshake with its SHA-1 and base64: the reader drops continuation frames like any other opcode.
- Errors of the underlying reader other than its end; a failing writer is modelled by `writable`.
- Sockets, files, locks, sleeps, deadlines, the mode flags and path checks of the listener.
- Requests with a nil session are covered by `Dispatch` and `HandleLine`; the nil receiver of a release is not.
