# Wolfpack browser client: a Dafny model

Wolfpack shows terminal sessions of coding agents in a browser. This project models the parts of its browser
client that keep state under interleaved events, or that promise an order, and proves what they promise.

| part | source | files |
|---|---|---|
| terminal socket protocol | `public/pty-socket-client.ts`, `public/ordered-resize.ts` | `Common`, `OrderedResize`, `PtyResize`, `PtyResizeSafety`, `PtyProtocol`, `PtySafety`, `PtyGeometry`, `PtyConservation`, `PtyHistory`, `PtyPrefill`, `PtyPrefillHistory`, `PtyAttach`, `PtyProgress`, `PtyLimits`, `PtyFailures`, `PtyThrows`, `PtyConnect`, `OutputAck`, `OutputAckSafety`, `PtyClient`, `PtyClientSafety`, `PtyClientLimits`, `PtySocketClient` |
| session rows, triage, manual order, label groups | `public/delegation-sessions.ts`, `public/session-triage.ts`, `public/session-order.ts`, `public/session-grouping.ts`, `public/app.ts` | `Sequences`, `Preorder`, `Forest`, `SessionModel`, `DelegationSessions`, `DelegationRoots`, `DelegationOrder`, `SessionTriage`, `RowOrder`, `SiblingOrder`, `Slots`, `SessionOrder`, `TriageOrder`, `TriageTheorems`, `TriageRecency`, `TriageMethods`, `SessionDrop`, `DropLimits`, `SessionGrouping` |
| terminal pool and its expiry | `public/terminal-pool.ts`, `public/app.ts` | `RecentKeys`, `TerminalPool` |
| document poller | `public/extension-document-polling.ts` | `DocumentPoller` |
| reconnect budget | `public/reconnector.ts` | `Reconnector` |
| grid relayout settlement | `public/app-grid.ts` | `GridRelayout` |

## How the model is built

- The socket client is a class, `PtySocketClient.Client`, whose handlers update fields in place. Its variables are
  grouped into four objects by what they are for. Every handler is proved to take one step of the transition function
  `PtyClient.ClientStep`, and any sequence of events to take the object through the run of that function
  (`HandleAll`), which the run theorems are about. A delivery callback may call back into the
  client before it returns; what it does is a parameter (`Callbacks`), so the theorems hold for every callback.
  `PtyThrows` adds callbacks that throw, and `PtyConnect` the ticket request before a socket.
- Everything another party can see is recorded in a log of effects, and `PtyHistory` and
  `PtyPrefillHistory` state the safety properties as statements about positions in that log. `PtyAttach` says exactly
  what attaching, its timers and a single request do.
- The array and map loops of the session modules are methods with loop invariants, proved to compute functions, and
  the theorems are about those functions. The recursion over a visited set is `Preorder.Walk`.
- The pool, the poller, the reconnector and the relayout are classes. Each has a method that takes any sequence of
  events, whose postcondition is the property over every run. Listeners and settlement callbacks may re-enter.
- Clocks, timers, random jitter, animation frames, network frames and promises are parameters or events.

## What turned out false, and exactly when it holds

Each item names the lemma with the condition and, where there is one, a run of a new client that violates the promise.

- Output is held back during an ordered resize, however the run goes on after an attach_ack, exactly when that did not
  withdraw ordered resize in flight (`WithdrawalExact`, `WithdrawalInFlight`).
- Frames keep their order after an attach_ack exactly when it did not withdraw ordered resize over held frames
  (`ConservationExact`, `WithdrawalReorders`).
- A prefill flush holds output back for every callback exactly when no output follows a callback, or resizes are not
  ordered (`FlushExact`, `FlushLetsThrough`).
- A queued proposal on an open socket can still be sent by the timers and frames to come exactly when, with no request
  in flight, its timer or the attach-ack fallback timer is armed or an attach is still answered; and, behind a request
  in flight, when that has a valid id and resizes are ordered or will be again (`FedExact`). A socket that opens under
  an unmounted terminal sends no attach and can leave a proposal that nothing but another proposal sends
  (`UnmountedOpenExact`, `StaleProposalStarves`).
- "acknowledged" says that the latest geometry was sent, when the acknowledged geometry is proposed again, exactly when
  the broker echoed the geometry it was asked for (`EchoExact`, `WithoutEcho`). With a proposal waiting for the ack, it
  is so exactly when the broker echoed, or that proposal is sent because it is forced or asks for another geometry
  (`EchoQueuedExact`).
- A promise is stranded by an exception out of an ack exactly when the client holds one with nothing queued
  (`StrandedExact`, `AckCallbackStrands`). Such an ack keeps all held frames exactly when its own callback throws or no
  frame but the last one lets an exception out (`FramesExact`, `DeliveryLosesFrames`).
- After any run another socket can be opened exactly when no close or reconnect came while a ticket request was pending
  (`EveryRunOpensAgainExact`, `ReconnectBlocks`).
- Output is acknowledged promptly, however the run goes on after acknowledgement is withdrawn, or after a closing
  socket is replaced, exactly when no byte was outstanding then (`WithdrawAckExact`, `ReplaceExact`,
  `WithdrawalForgets`, `ReplacementForgets`). The byte counters survive a replaced socket, so an ack can cover bytes of
  another socket (`AcknowledgedElsewhere`).
- The projection returns each session once exactly when visit keys are unique (`OrderIsPermutation`).
- A drop is shown exactly when every placement it leads to lands in the slot that its row was dropped into: the slot it
  wants, clipped to the group, or the next one that no placement before it takes (`NarrowDropExact`). With all placed
  rows in the scope this says that the scope holds every row above one that was placed or moved (`PlacedDropExact`,
  `FirstDropExact`, `NarrowScopeMisses`).
- Siblings follow their ranks, whatever these are, exactly when their parent climbs to the top, or another row at or
  above it is listed before each of them, or there is at most one (`SiblingsExact`, `CycleIgnoresRank`).
- 27 attempts bound a reconnect budget of which no pending retry is cancelled; with cancels there is no bound
  (`Reconnector.Run`, `CancelEachTime`).
- A relayout callback runs once per registration exactly when it is never registered while waiting
  (`OncePerRegistration`, `ScheduleTwice`).

## Model

| member | source | states |
|---|---|---|
| `OrderedResize.OrderedResizeTracker.MakeRequest` | public/ordered-resize.ts:41-46 | a request takes an id above all earlier ones and replaces the pending one |
| `OrderedResize.OrderedResizeTracker.Acknowledge` | public/ordered-resize.ts:61-66 | an ack completes a request if and only if it carries the pending id and its id, columns and rows are between 1 and 9,007,199,254,740,991; any other leaves the tracker as it was |
| `OrderedResize.OrderedResizeTracker.Clear` | public/ordered-resize.ts:68-71 | clearing drops the pending request and keeps the id counter, so ids never repeat |
| `PtyResizeSafety.SettleKeeps` | public/pty-socket-client.ts:493-497 | settling keeps the books: the promise settled is the one next in order, so none is settled twice |
| `PtyResizeSafety.CancelKeeps` | public/pty-socket-client.ts:505-514 | cancelling a lifecycle leaves no promise unsettled, no proposal and no request in flight |
| `PtyResizeSafety.SendKeeps` | public/pty-socket-client.ts:516-530 | sending opens a transaction exactly when resizes are ordered, with a fresh id and the barrier up |
| `PtyResizeSafety.FlushKeeps` | public/pty-socket-client.ts:532-543 | a flush leaves no ready proposal that nothing would send, and settles only when idle |
| `PtyResizeSafety.ProposeKeeps` | public/pty-socket-client.ts:545-574 | queueing, superseding or deduplicating a proposal keeps the transaction and settlement invariants, and a forced proposal that was not sent stays queued and forced |
| `PtyResizeSafety.ProposalExact` | public/pty-socket-client.ts:545-574 | a proposal is forced if it or the one it replaces is, and ready likewise; unforced with the geometry last sent it empties the queue and sends nothing, ready with nothing in flight or drained it is sent, and otherwise it is what is queued, with a timer unless it is ready |
| `PtyResizeSafety.FlushExact` | public/pty-socket-client.ts:532-543 | a flush on an open socket with nothing in flight or drained takes a ready proposal out of the queue, and sends it if it is forced or asks for another geometry; any other flush changes nothing |
| `PtyResizeSafety.QueueKeeps` | public/pty-socket-client.ts:482-491 | a caller is handed the promise the client holds, or one settled at once, with "acknowledged" only when nothing is queued or in flight |
| `PtyResizeSafety.FireDebounceKeeps` | public/pty-socket-client.ts:564-572 | the debounce timer makes a queued proposal ready and sends it unless a request is in flight |
| `PtyResizeSafety.AcknowledgeKeeps` | public/pty-socket-client.ts:639-646 | an acknowledgement closes the open transaction and blocks sends for the drain |
| `PtyResizeSafety.ResumeKeeps` | public/pty-socket-client.ts:647-655 | after the drain a proposal made meanwhile is flushed, or the waiter is settled |
| `PtySafety.StepKeeps` | public/pty-socket-client.ts:300-391 | every event keeps the books of transactions, promises and held bytes, and strands no promise; output stays held back, no proposal starves and frames are held only behind a barrier unless the event is the one that defeats it |
| `PtySafety.RunKeeps` | public/pty-socket-client.ts:173-1029 | the same over every run, each guarantee under its own condition on the events |
| `PtySafety.DeferKeeps` | public/pty-socket-client.ts:596-603 | held frames never exceed 1,048,576 bytes and their counter is exact |
| `PtySafety.ReleaseKeeps` | public/pty-socket-client.ts:605-620 | replaying held frames keeps the invariant and keeps output held back, whatever the delivery callbacks do |
| `PtySafety.AckLeavesNothingReady` | public/pty-socket-client.ts:644-654 | a proposal made from inside the drain is not left ready and unsent |
| `PtySafety.PassControlKeeps` | public/pty-socket-client.ts:657-703 | viewport, prefill_done and pty_ready keep the invariant, and output held back unless a flush goes on after a callback that can resize |
| `PtySafety.SendAttachKeeps` | public/pty-socket-client.ts:300-391 | an attach cancels the previous lifecycle and leaves no earlier proposal starving |
| `PtyLimits.WithdrawalExact` | public/pty-socket-client.ts:622-637 | after an attach_ack output is held back over every continuation if and only if ordered resize was granted or nothing was in flight |
| `PtyLimits.ConservationExact` | public/pty-socket-client.ts:622-637 | after an attach_ack frames are conserved in order over every continuation if and only if ordered resize was granted or no frame was held |
| `PtyProgress.FedExact` | public/pty-socket-client.ts:381-391 | the timers and frames to come take a queued proposal out of the queue, other than by cancelling it, if and only if with no request in flight its timer or the fallback timer is armed or an attach is still answered, and else the request in flight has a valid id and resizes are ordered or an attach is still answered |
| `PtyProgress.EveryProposalIsFed` | public/pty-socket-client.ts:532-574 | over every run in which no socket opens unmounted over a ready proposal and output is held back, a queued proposal on an open socket can still be sent |
| `PtyProgress.UnmountedOpenExact` | public/pty-socket-client.ts:861-869 | a socket that opens under an unmounted terminal sends nothing, and can still send the proposal left over if and only if one of the two timers is armed with no request in flight, or the request in flight can be acknowledged |
| `PtyLimits.FlushExact` | public/pty-socket-client.ts:664-703 | outside a drain a prefill flush holds output back for all callbacks if and only if no output follows a callback or resizes are not ordered |
| `PtyLimits.EchoExact` | public/pty-socket-client.ts:639-655 | with nothing queued, a caller that proposes the geometry just acknowledged hears "acknowledged" at once, and the history stays truthful if and only if that geometry is the one that was sent |
| `PtyLimits.EchoQueuedExact` | public/pty-socket-client.ts:647-655 | with a ready proposal queued an ack keeps the history truthful if and only if it echoes, or no promise is held, or the proposal is forced or asks for another geometry and so is sent |
| `PtyFailures.WithdrawalInFlight` | public/pty-socket-client.ts:622-637 | a run from creation in which output is handed over between an ordered resize and its ack |
| `PtyFailures.WithdrawalReorders` | public/pty-socket-client.ts:622-637 | a run from creation in which a later frame overtakes a held one |
| `PtyFailures.FlushLetsThrough` | public/pty-socket-client.ts:664-703 | a run from creation in which a callback of prefill_done resizes and the rest of the flush is handed over in flight |
| `PtyFailures.StaleProposalStarves` | public/pty-socket-client.ts:840-869 | a run from creation after which no timer is armed, the old paint callback does nothing, nothing was sent on the open socket, and no timer or frame to come sends its queued proposal |
| `PtyFailures.WithoutEcho` | public/pty-socket-client.ts:639-655 | a run from creation in which "acknowledged" is told for a geometry that was never sent |
| `PtyThrows.StepOrThrowKeeps` | public/pty-socket-client.ts:743-760 | an exception out of any callback keeps the books of transactions, promises and held bytes, and strands no promise unless it leaves an ack |
| `PtyThrows.EveryThrowingRunIsSound` | public/pty-socket-client.ts:639-760 | whatever callbacks throw, over every run from creation: the history is sound, and every promise made was settled or is the one the client holds |
| `PtyThrows.StepIsQuiet` | public/pty-socket-client.ts:743-760 | without an exception the throwing handlers are those of the protocol |
| `PtyThrows.StrandedExact` | public/pty-socket-client.ts:644-654 | an exception out of an ack whose callbacks do nothing else strands a promise if and only if the client holds one and no proposal is queued |
| `PtyThrows.FramesExact` | public/pty-socket-client.ts:605-620 | an ack whose callbacks do nothing but throw keeps every held frame if and only if its own callback throws, so that none is replayed, or no frame but the last one lets an exception out |
| `PtyThrows.ProposalRecovers` | public/pty-socket-client.ts:545-574 | the next proposal on an open socket gives a stranded promise something that settles it |
| `PtyThrows.AckCallbackStrands` | public/pty-socket-client.ts:639-655 | a run from creation in which onResizeAck throws, a promise waits for nothing and the barrier stays up with nothing in flight |
| `PtyThrows.DeliveryLosesFrames` | public/pty-socket-client.ts:605-620 | a run from creation in which a delivery throws and the frame held behind it is lost |
| `PtyConnect.OpensAgainExact` | public/pty-socket-client.ts:840-919 | some continuation opens another socket if and only if no request is pending without an answer that would be listened to |
| `PtyConnect.GivingUpExact` | public/pty-socket-client.ts:973-1001 | close() and reconnect() leave another socket possible if and only if no ticket request is pending |
| `PtyConnect.EveryRunOpensAgainExact` | public/pty-socket-client.ts:840-1001 | over every run from creation another socket can be opened if and only if no close or reconnect came while a request was pending |
| `PtyConnect.EveryRunOpensOne` | public/pty-socket-client.ts:840-919 | over every run in which closing sockets do not come back: a socket is opened exactly by a routed answer to the latest request, and none is live then; a request is made exactly by connecting without a live socket, by a wanted mount without a socket or by reconnecting, with none pending |
| `PtyConnect.ReconnectBlocks` | public/pty-socket-client.ts:989-1001 | a reconnect before the first ticket arrives means that no socket is ever opened |
| `PtyConnect.Connector.DoConnect` | public/pty-socket-client.ts:840-850 | the field updates compute Connect |
| `PtyConnect.Connector.TicketAnswered` | public/pty-socket-client.ts:849-919 | the callbacks of a ticket request compute Settle, and an older generation is ignored |
| `PtyConnect.Connector.NotifyTerminalReady` | public/pty-socket-client.ts:1005-1012 | a wanted notification without a socket connects |
| `PtyConnect.Connector.DoReconnect` | public/pty-socket-client.ts:989-1001 | gives up the socket and connects, in this order |
| `PtyGeometry.StepKeeps` | public/pty-socket-client.ts:482-574 | every event keeps: a request in flight carries the geometry last sent, a queued one the geometry last proposed; an echoing one also keeps that every waiter heard the truth |
| `PtyGeometry.RunKeeps` | public/pty-socket-client.ts:482-574 | the same over every run |
| `PtyConservation.HandleResizeAckConserves` | public/pty-socket-client.ts:605-620 | an ack moves held frames past the barrier in order and loses none |
| `PtyConservation.DeferConserves` | public/pty-socket-client.ts:596-603 | a frame that is held joins the held frames at their end, or its socket is lost |
| `PtyConservation.PassControlTakes` | public/pty-socket-client.ts:664-703 | viewport and prefill_done hand over the buffered chunks in order, once each |
| `PtyConservation.StepConserves` | public/pty-socket-client.ts:743-838 | one event on a live socket adds exactly the bytes and frames that arrived, unless it withdraws ordered resize over held frames |
| `PtyConservation.RunConserves` | public/pty-socket-client.ts:596-838 | over any stretch of one lifecycle on one open socket without a conflict and without such a withdrawal: bytes handed over, then the prefill buffer, then the held frames equal the bytes received, in order, and control frames keep their place |
| `PtyConservation.EveryRunConserves` | public/pty-socket-client.ts:596-838 | the same from any time of a run from creation, whatever came before, as long as ordered resize was never withdrawn over held frames |
| `PtyConservation.RunAdvances` | public/pty-socket-client.ts:505-514 | lifecycles only advance, and a lost socket never comes back |
| `PtyHistory.EveryRunIsSound` | public/pty-socket-client.ts:505-655 | over every run in any environment: one ordered resize in flight, ids strictly increase across cancels and reconnects, an ack completes the one request sent in its own lifecycle, promises are settled once and in order, "acknowledged" only when nothing is queued or in flight, and every promise made was settled or is held for something queued or in flight; a forced proposal is sent, or its lifecycle cancelled, before any promise is acknowledged, and until then is queued and forced whatever is proposed meanwhile; and the barrier is up only while resizes are ordered |
| `PtyHistory.HandedOutIsKept` | public/pty-socket-client.ts:482-491 | a promise handed to a caller was settled or is still held for something queued or in flight, after every continuation |
| `PtyHistory.EveryRunHoldsOutput` | public/pty-socket-client.ts:596-620 | no output between an ordered resize and its ack, over every run without a withdrawal in flight and without a callback that can send a resize in the middle of a prefill flush |
| `PtyHistory.EveryRunFeedsProposals` | public/pty-socket-client.ts:532-574 | over every run in which no socket opens unmounted over a ready proposal, a queued proposal on an open socket has its timer or a request in flight to wait for |
| `PtyHistory.EveryEchoedRunIsTruthful` | public/pty-socket-client.ts:482-574 | over every echoed run the latest proposed geometry is the one last sent whenever a waiter hears "acknowledged" |
| `PtyPrefill.PassViewportKeeps` | public/pty-socket-client.ts:664-681 | after a viewport, output is told by the effects to be held back, and is; what was buffered before it is shown first |
| `PtyPrefill.PassPrefillDoneKeeps` | public/pty-socket-client.ts:683-703 | prefill_done replaces the screen right away exactly when output was held back behind a viewport, shows what was held, and reports its end |
| `PtyPrefill.RunKeeps` | public/pty-socket-client.ts:664-838 | over every run, whether prefill_done is awaited, a viewport has come and output is buffered is what the effects tell |
| `PtyPrefillHistory.EveryRunShowsOutput` | public/pty-socket-client.ts:664-838 | over every run in every mode: nothing is shown while output passed behind a viewport, or in viewport mode since the attach, is held, until a prefill_done, another viewport or the end of the prefill; all other output of an attached client is shown in the very next effect; the screen is replaced directly after a prefill_done exactly when output was held behind a viewport; every prefill_done is reported before another frame is passed, and every pty_ready at once |
| `PtyAttach.StepAttachesExact` | public/pty-socket-client.ts:300-391 | an attach is sent if and only if a socket opens, the terminal mounts and none was sent before, a retry is due or control is granted, with the socket open, the terminal mounted and its dimensions known |
| `PtyAttach.EveryRunIsArmed` | public/pty-socket-client.ts:397-407 | over every run: an unanswered attach has its fallback timer, the prefill deadline is armed only while prefill_done is awaited, and a client without a socket has no timer armed and nothing queued, in flight, buffered or held |
| `PtyAttach.AttachExact` | public/pty-socket-client.ts:300-391 | an attempt with dimensions attaches on the same socket, awaits its answer, and arms the deadline for this socket exactly where there is a prefill; without dimensions it is retried, or after 20 retries closes the socket |
| `PtyAttach.AttachGivesUp` | public/pty-socket-client.ts:310-324 | with dimensions that stay unknown the socket stays open through 19 retries and the 20th closes it, and no attach is sent |
| `PtyAttach.FallbackExact` | public/pty-socket-client.ts:381-391 | if the attach was never answered the current geometry is queued or sent, even if the attach had it; otherwise nothing changes |
| `PtyAttach.DeadlineExact` | public/pty-socket-client.ts:361-370 | the deadline closes the socket if and only if prefill_done is still awaited on the open socket it was armed for |
| `PtyAttach.ConflictExact` | public/pty-socket-client.ts:705-715 | a conflict drops the prefill, its deadline and the wait for an answer, and nothing else |
| `PtyAttach.SocketExact` | public/pty-socket-client.ts:840-860 | connecting makes a fresh socket exactly without a live one, closing leaves it in place until its close event, and that or retiring gives it up |
| `PtyAttach.ClosedSendsNothing` | public/pty-socket-client.ts:516-543 | no event sends an attach or a resize on a socket that is not open, unless it opens it |
| `PtyAttach.StaleIsIgnored` | public/pty-socket-client.ts:454-463 | a paint callback of another socket or lifecycle does nothing, nor does a mount after the first attach |
| `PtyAttach.FitExact` | public/pty-socket-client.ts:576-590 | what a caller asks for is what is queued or sent, with its force and urgency |
| `PtyAttach.HoldExact` | public/pty-socket-client.ts:596-603 | a frame behind the barrier is held if and only if 1,048,576 bytes are not exceeded with it, and else closes the socket |
| `OutputAckSafety.SendAckKeeps` | public/pty-socket-client.ts:773-792 | sending an ack covers what arrived and changes no count; outstanding output has no retry of an earlier ack left |
| `OutputAckSafety.ReceiveKeeps` | public/pty-socket-client.ts:794-812 | the count grew by the bytes, and a receipt leaves the gap below the threshold with a timer whatever was outstanding before |
| `OutputAckSafety.ReceiveExact` | public/pty-socket-client.ts:794-812 | output is acknowledged at once if 65,536 bytes are outstanding with it and else by the timer; empty output and output before negotiation change nothing; output that takes the count over 9,007,199,254,740,991 is not counted |
| `OutputAckSafety.RetriesExact` | public/pty-socket-client.ts:773-792 | of n firings of the retry timer after an ack, with no output between, exactly min(n, 4) send it again if at least 458,752 bytes were received, and none otherwise |
| `OutputAckSafety.SoundLedger` | public/pty-socket-client.ts:762-812 | acks grow unless they are retried, never exceed what had arrived, and a quiet period has at most four retries |
| `PtyClientSafety.ClientStepKeeps` | public/pty-socket-client.ts:762-882 | every event keeps acknowledgement prompt, unless it withdraws acknowledgement or replaces a closing socket while bytes are outstanding |
| `PtyClientSafety.EveryRunAcknowledges` | public/pty-socket-client.ts:762-882 | over every run from creation acks grow unless they are retried, never run ahead of what arrived, and a quiet period has at most four retries |
| `PtyClientSafety.EveryRunIsPrompt` | public/pty-socket-client.ts:762-812 | over every run without such a withdrawal or replacement, an open socket has no unacknowledged byte without a timer, and fewer than 65,536 of them |
| `PtyClientSafety.EveryRunRetries` | public/pty-socket-client.ts:773-792 | after any run, when the timer of outstanding output fires on an open socket one ack of all bytes is sent, and n firings of the retry timer send it again exactly min(n, 4) times if at least 458,752 bytes were received, and never otherwise |
| `PtyClientSafety.AcksNeedNegotiation` | public/pty-socket-client.ts:773-778 | an event adds an ack only on an open socket with acknowledgement negotiated |
| `PtyClientSafety.NegotiationExact` | public/pty-socket-client.ts:622-624 | acknowledgement is what the last attach_ack on the socket granted, and off without a socket |
| `PtyClientSafety.RunCounts` | public/pty-socket-client.ts:794-812 | from negotiation on the counter equals the bytes that arrived |
| `PtyClientSafety.CountedOnce` | public/pty-socket-client.ts:871-882 | a byte is counted once even if the barrier replays it later |
| `PtyClientLimits.WithdrawAckExact` | public/pty-socket-client.ts:622-624 | after an attach_ack acknowledgement is prompt over every continuation if and only if it was granted or no byte was outstanding |
| `PtyClientLimits.ReplaceExact` | public/pty-socket-client.ts:840-869 | after a closing socket is replaced acknowledgement is prompt over every continuation if and only if no byte was outstanding |
| `PtyClientLimits.WithdrawalForgets` | public/pty-socket-client.ts:622-624 | a run from creation in which acknowledgement is withdrawn and granted again, and a byte waits with no timer at all |
| `PtyClientLimits.ReplacementForgets` | public/pty-socket-client.ts:840-869 | a run from creation in which a closing socket is replaced, and a byte waits with no timer at all |
| `PtyClientLimits.AcknowledgedElsewhere` | public/pty-socket-client.ts:840-869 | a run from creation in which the byte of one socket is acknowledged on the next one |
| `PtyClientSafety.LinkRuns` | public/pty-socket-client.ts:871-882 | the socket half of the client is a run of the protocol, on the events the counter lets through |
| `PtySocketClient.ResizeState.CancelResize` | public/pty-socket-client.ts:505-514 | the field updates compute Cancel |
| `PtySocketClient.ResizeState.FlushQueuedResize` | public/pty-socket-client.ts:532-543 | the field updates compute Flush |
| `PtySocketClient.ResizeState.QueueResize` | public/pty-socket-client.ts:545-574 | the field updates and the returned promise are those of Queue |
| `PtySocketClient.AckState.SendOutputAck` | public/pty-socket-client.ts:773-792 | the field updates compute SendAck |
| `PtySocketClient.AckState.ReceiveOutputBytes` | public/pty-socket-client.ts:794-812 | the field updates compute Receive, and an inexact count closes the socket |
| `PtySocketClient.Client.ReleaseOrderedResizeBarrier` | public/pty-socket-client.ts:605-620 | the replay loop computes Release, with callbacks that act on the client |
| `PtySocketClient.Client.DeliverChunks` | public/pty-socket-client.ts:664-703 | the delivery loop computes DeliverAll, with callbacks that act on the client |
| `PtySocketClient.Client.OnOpen` | public/pty-socket-client.ts:861-869 | takes the step SocketOpened |
| `PtySocketClient.Client.OnClose` | public/pty-socket-client.ts:884-904 | takes the step SocketClosed |
| `PtySocketClient.Client.Connect` | public/pty-socket-client.ts:840-860 | takes the step Connect |
| `PtySocketClient.Client.Close` | public/pty-socket-client.ts:973-980 | takes the step Retired and resets the acknowledgements |
| `PtySocketClient.Client.OnBinary` | public/pty-socket-client.ts:871-882 | takes the step BinaryFrame: counted first, then held, buffered or delivered |
| `PtySocketClient.Client.OnControl` | public/pty-socket-client.ts:743-760 | takes the step ControlFrame |
| `PtySocketClient.Client.OnAttachAck` | public/pty-socket-client.ts:622-637 | takes the step AttachAck |
| `PtySocketClient.Client.OnResizeAck` | public/pty-socket-client.ts:639-655 | takes the step ResizeAck |
| `PtySocketClient.Client.OnViewerConflict` | public/pty-socket-client.ts:705-715 | takes the step ViewerConflict |
| `PtySocketClient.Client.OnControlGranted` | public/pty-socket-client.ts:717-723 | takes the step ControlGranted |
| `PtySocketClient.Client.SendFitResize` | public/pty-socket-client.ts:576-590 | takes the step FitResize and returns the promise of queueResize |
| `PtySocketClient.Client.DebounceFires` | public/pty-socket-client.ts:566-572 | takes the step DebounceFired |
| `PtySocketClient.Client.AckTimerFires` | public/pty-socket-client.ts:794-812 | takes the step AckTimerFired |
| `PtySocketClient.Client.AckRetryFires` | public/pty-socket-client.ts:773-792 | takes the step AckRetryFired |
| `PtySocketClient.Client.NotifyTerminalReady` | public/pty-socket-client.ts:1005-1015 | takes the step TerminalReady; the connect call without a socket is PtyConnect.Connector.NotifyTerminalReady |
| `PtySocketClient.Client.AttachRetryFires` | public/pty-socket-client.ts:300-325 | takes the step AttachRetried |
| `PtySocketClient.Client.AttachAckTimerFires` | public/pty-socket-client.ts:381-391 | takes the step AckFallback |
| `PtySocketClient.Client.PrefillDeadlineFires` | public/pty-socket-client.ts:361-370 | takes the step PrefillDeadline |
| `PtySocketClient.Client.StableAfterPaint` | public/pty-socket-client.ts:454-480 | takes the step AfterPaint |
| `PtySocketClient.Client.HandleAll` | public/pty-socket-client.ts:840-904 | any sequence of events takes the object through the run of the model |
| `PtySocketClient.RunNewClient` | public/pty-socket-client.ts:173-1029 | a new client, whatever happens to it, has a sound history, has settled or holds every promise it made, and never acknowledges more than arrived |
| `DelegationSessions.OrderIsPermutation` | public/delegation-sessions.ts:122-171 | the projection terminates and returns each session once if and only if visit keys are unique, cycles and self-parents included |
| `DelegationSessions.EmittedRoleIsExact` | public/delegation-sessions.ts:122-171 | the role a row gets is root without a parent reference, orphan with an absent parent, child otherwise |
| `DelegationSessions.ProjectDelegationSessions` | public/delegation-sessions.ts:122-171 | the loops, maps and recursion emit exactly the rows of the projection |
| `DelegationOrder.ChildrenByName` | public/delegation-sessions.ts:145-171 | children that come after their parent come out in ascending name order, ties in inventory order |
| `DelegationOrder.ChildCountExact` | public/delegation-sessions.ts:84-86 | the count a row shows is the number of sessions that name it as their parent, and none is shown for zero |
| `DelegationOrder.StartsInOrder` | public/delegation-sessions.ts:167-169 | of two sessions without a present parent, top-level ones come before orphans, and each kind in inventory order |
| `DelegationRoots.DelegationRootSession` | public/delegation-sessions.ts:92-120 | the walk with its visited set computes DelegationRoot, and terminates on cycles |
| `DelegationRoots.DelegationRootMeans` | public/delegation-sessions.ts:92-120 | the walk finds a root if and only if the parent chain ends there |
| `DelegationRoots.LookupIsLast` | public/delegation-sessions.ts:98-102 | of several sessions with one id the last is the one found |
| `DelegationRoots.RootIsTop` | public/delegation-sessions.ts:109-118 | a root has no parent reference or, for grouping, one to an absent session |
| `DelegationRoots.OrphanRoot` | public/delegation-sessions.ts:114-117 | a session whose parent is absent is its own group root, and has no root otherwise |
| `DelegationRoots.ParentComesFirst` | public/delegation-sessions.ts:122-171 | in the projection the parent of every tree member comes before it |
| `DelegationRoots.DelegationGridMembers` | public/delegation-sessions.ts:173-191 | the filtering loop computes GridMembersIn |
| `DelegationRoots.GridIsTree` | public/delegation-sessions.ts:173-191 | a session is in a root's grid if and only if the upward walk from it ends at that root |
| `DelegationRoots.ParentHasSameGroup` | public/session-grouping.ts:6-10 | a session and its present parent resolve to the same group root, on cycles too |
| `SessionTriage.CompareIsTotalPreorder` | public/session-triage.ts:19-28 | the comparison is a total preorder, antisymmetric in sign, and negative exactly for need before fail before work before idle, in need the earlier change, in work and idle the later activity, a known time before an unknown one |
| `SessionTriage.SessionTriagePriorities` | public/session-triage.ts:31-50 | the walks compute Priorities and terminate on cyclic parents |
| `SessionTriage.RowByIdIsLast` | public/session-triage.ts:35-39 | of several rows with one id the last is the one found |
| `SessionTriage.PriorityIsMostUrgent` | public/session-triage.ts:31-50 | each row's priority is a member of its own subtree and none there is more urgent, on any parent graph |
| `RowOrder.OrderByRankPermutes` | public/session-order.ts:163-202 | every row comes out exactly once, whatever the parents and ranks |
| `RowOrder.SiblingsInOrder` | public/session-order.ts:163-202 | siblings whose parent climbs to the top come out in rank order, ties in input order |
| `RowOrder.SiblingRanks` | public/session-order.ts:167-172 | of two siblings the one with the lesser rank is shown first, a ranked one before an unranked one, and otherwise the one listed first |
| `RowOrder.OrphansAreTops` | public/session-order.ts:176-181 | roots and orphans are at the top, whatever parent they refer to |
| `RowOrder.SiblingsAfterParent` | public/session-order.ts:163-202 | on any parent graph the children of a row that comes before all of them come out in rank order |
| `SiblingOrder.ComesFirstExact` | public/session-order.ts:163-202 | on any parent graph a row comes before all its children if and only if it climbs to the top or another row at or above it is listed before each of them |
| `SiblingOrder.SiblingsExact` | public/session-order.ts:163-202 | siblings come out in rank order for all ranks if and only if their parent climbs to the top, or another row at or above it is listed before each of them, or there is at most one |
| `RowOrder.SubtreeIsContiguous` | public/session-order.ts:163-202 | a subtree is one stretch that starts with its root |
| `Slots.CountsAgree` | public/session-triage.ts:75-85 | slot filling runs out of neither slots nor rows |
| `Slots.ArrangePermutes` | public/session-triage.ts:75-85 | filled slots are a permutation of the group, and unplaced rows keep their order |
| `Slots.PositionsAreHonoured` | public/session-triage.ts:76-81 | distinct positions in range are honoured exactly |
| `Slots.ArrangeIsUnique` | public/session-triage.ts:75-85 | an order that puts every placed row in its slot and keeps the rest in order is the one that is filled in |
| `Slots.ArrangeExact` | public/session-triage.ts:75-85 | for any stored positions, an order is the one filled in if and only if every placement lands in its slot: the clipped one it wants, or the next one that no earlier placement takes, or the first |
| `SessionOrder.KeepFirst` | public/session-order.ts:55-59 | loading keeps the first identity of each session and no other, so stored identities are distinct |
| `SessionOrder.RecordMoveDistinct` | public/session-order.ts:110-127 | recording a move keeps identities distinct |
| `SessionOrder.MoveIsRefused` | public/session-order.ts:99-103 | a move onto itself, or with one of the two out of the scope or the order, changes nothing |
| `SessionOrder.RecordExact` | public/session-order.ts:117-126 | a session among the siblings is recorded last, with its place among them and the tier; the record of any other changes nothing |
| `SessionOrder.RecordKeepsOthers` | public/session-order.ts:120-125 | a record keeps every other session, on other machines too, and those not among the siblings as they are |
| `TriageMethods.OrderDelegationSessionRowsByRank` | public/session-order.ts:163-202 | the maps, sorts and recursion compute OrderByRank |
| `TriageMethods.ArrangeGroup` | public/session-triage.ts:72-85 | the slot array and the counter compute Shown |
| `TriageMethods.GroupSiblings` | public/session-triage.ts:60-69 | the nested maps hold, per parent, the tiers in the order met and the rows of each in automatic order |
| `TriageMethods.OrderTriageSessionRows` | public/session-triage.ts:53-88 | the whole loop computes OrderTriage |
| `TriageTheorems.TriagePermutes` | public/session-triage.ts:53-88 | the order is a permutation of the rows, on any parent graph |
| `TriageTheorems.TriageKeepsSubtrees` | public/session-triage.ts:53-88 | every subtree stays one stretch after its root |
| `TriageTheorems.SiblingTiersAscend` | public/session-triage.ts:53-88 | among siblings need comes before fail before work before idle, whatever was placed by hand |
| `TriageTheorems.UrgentSubtreeFirst` | public/session-triage.ts:53-88 | a subtree holding a session of a more urgent tier than all of a sibling subtree is shown wholly above it |
| `TriageTheorems.ParentShownFirst` | public/session-triage.ts:53-88 | a parent is shown above its children |
| `TriageTheorems.GroupIsShown` | public/session-triage.ts:71-86 | siblings of one tier are shown as their slots say |
| `TriageTheorems.UnplacedKeepOrder` | public/session-triage.ts:82-85 | rows without a stored position keep their automatic order |
| `TriageTheorems.PositionsAreShown` | public/session-triage.ts:76-81 | distinct stored positions in range are shown exactly |
| `TriageTheorems.StoredSlotsAreShown` | public/session-triage.ts:76-81 | the session of a stored identity is shown in its stored slot, if the slots are distinct and inside the group |
| `TriageTheorems.StoredOrderIsShown` | public/session-triage.ts:76-81 | identities stored without slots are shown first in the group, in their stored order |
| `TriageRecency.LeadersOrderSubtrees` | public/session-triage.ts:19-88 | of two siblings, with the most urgent members of their subtrees: the whole subtree whose leader is of an earlier tier is shown above; in one tier, if neither was placed by hand, the one whose leader changed earlier in need, or was active later in work and idle, a known time before an unknown one; with no such difference, and always in fail, the one listed first |
| `SessionDrop.MovedSiblings` | public/session-order.ts:92-107 | the moved order, cut down to any scope in a group, is the drop on the group cut down to it |
| `SessionDrop.RecordedPlacements` | public/session-order.ts:110-127 | after a record the rows of the scope want the slot they have in it, the others what they wanted without the moved row, which comes last |
| `SessionDrop.DropIsShown` | public/session-order.ts:92-127 | moving, recording and ordering again shows exactly the dropped sibling order, with the moved row directly before or after its target, when the scope is the whole group |
| `SessionDrop.DropElsewhere` | public/session-order.ts:110-127 | every other group is shown as before, whatever the scope |
| `SessionDrop.DropExact` | public/session-order.ts:110-127 | for any stored positions and any scope, a recorded drop is shown in its group if and only if every placement it leads to lands in the slot its row was dropped into |
| `SessionDrop.ScopedDropExact` | public/session-order.ts:92-127 | a record whose scope holds the moved row and all rows placed by hand shows the drop if and only if the scope holds every row above one of those |
| `DropLimits.NarrowDropExact` | public/app.ts:5601-5617 | the same for moving, recording and ordering again in the whole list, with any part of the group as scope |
| `DropLimits.PlacedDropExact` | public/app.ts:5601-5617 | where the scope holds all rows placed by hand, that is if and only if it holds every row above one of those or the moved row |
| `DropLimits.FirstDropExact` | public/app.ts:5601-5617 | with nothing placed in the group, the drop is shown if and only if the scope holds every row above the place it is dropped at |
| `DropLimits.NarrowScopeMisses` | public/app.ts:5601-5617 | with the middle of three cards out of the scope, dropping the first below the last leaves it above that |
| `DropLimits.CycleIgnoresRank` | public/session-order.ts:199-200 | with a child listed before the two rows of a cycle, the three rows come out as listed, whatever their ranks |
| `SessionGrouping.ProjectSessionGroups` | public/session-grouping.ts:19-33 | one group per bucket that occurs, holding its rows in order; labels first, by code units, then no group, then unavailable, then unsupported |
| `SessionGrouping.GroupsPermuteRows` | public/session-grouping.ts:19-33 | the groups together are a permutation of the rows |
| `SessionGrouping.TreesStayTogether` | public/session-grouping.ts:19-33 | a row and the row of its present parent are in the same group, on cycles too |
| `SessionGrouping.BucketsCompare` | public/session-grouping.ts:31-32 | of two different buckets exactly one precedes the other |
| `SessionGrouping.PrecedesTransitive` | public/session-grouping.ts:31-32 | the order of buckets is transitive, so it is a strict total order |
| `SessionGrouping.PrecedesMeans` | public/session-grouping.ts:31-32 | the rank and label comparison puts labels first, by code units, then no group, then unavailable, then unsupported |
| `SessionGrouping.BucketIsOfRoot` | public/session-grouping.ts:22-25 | the bucket of a session is that of the record of its highest present ancestor: undeclared is unsupported, invalid is unavailable, and a record gives its label or none |
| `SessionGrouping.BucketWithoutRoot` | public/session-grouping.ts:6-10 | a session without such an ancestor, on a cycle or with repeated ids, is unavailable |
| `SessionGrouping.VisibleDelegationRows` | public/app.ts:1685-1707 | on parent-first rows exactly those are shown whose ancestors on the rendered parent chain are all expanded |
| `SessionGrouping.TriageIsParentFirst` | public/app.ts:1771-1793 | the triage order is parent first where no parent chain ends in a cycle |
| `SessionGrouping.LabelGroupIsParentFirst` | public/app.ts:1962-1972 | so is every label group of it, which is what the app folds |
| `RecentKeys.MostRecentMeans` | public/terminal-pool.ts:57-58 | the reference order lists each key of a history once, by last use |
| `RecentKeys.LruIsMostRecent` | public/terminal-pool.ts:79-132 | opening one by one keeps the first distinct keys of the history, most recent first |
| `RecentKeys.LargerPoolHoldsMore` | public/terminal-pool.ts:79-132 | a larger pool holds everything a smaller one does |
| `TerminalPool.Pool.Remove` | public/terminal-pool.ts:79-83 | a removed entry is disposed once, leaves the pool and loses its timer, and no other timer changes |
| `TerminalPool.Pool.EvictHiddenWhile` | public/terminal-pool.ts:85-89 | eviction keeps the front of the pool, never the visible entry out, and the timers of what stays |
| `TerminalPool.Pool.Park` | public/terminal-pool.ts:91-97 | the parked entry stays pooled, with a timer armed at the current time, and no other timer changes |
| `TerminalPool.Pool.Show` | public/terminal-pool.ts:105-117 | a hit moves to the front and is shown, a miss changes nothing |
| `TerminalPool.Pool.Open` | public/terminal-pool.ts:120-132 | hit or miss, the keys follow the LRU step with the entries they had, the opened entry is shown, and of the timers only that of the entry parked now is new |
| `TerminalPool.Pool.OpenAll` | public/terminal-pool.ts:120-132 | after any sequence of opens from empty the keys are the first max(1, capacity) distinct keys of the history, most recent first |
| `TerminalPool.Pool.Evict` | public/terminal-pool.ts:141-146 | evicting a key removes exactly that key, and leaves the other entries and timers |
| `TerminalPool.Pool.EvictEntry` | public/terminal-pool.ts:147-152 | evicting an entry disposes it once, and reports whether it was pooled |
| `TerminalPool.Pool.EvictWhere` | public/terminal-pool.ts:99-103 | the selected slots go, in order, and the others stay |
| `TerminalPool.Pool.EvictMachine` | public/terminal-pool.ts:153-153 | hidden entries of the machine go, the visible one stays |
| `TerminalPool.Pool.EvictHidden` | public/terminal-pool.ts:154-154 | nothing but the visible entry is left, and no timer |
| `TerminalPool.Pool.Clear` | public/terminal-pool.ts:155-157 | the pool is empty and every entry disposed, front first |
| `TerminalPool.Pool.ShowAfterReleasingStaleVisible` | public/terminal-pool.ts:252-256 | the visible entry is disposed and never the hit, and the rest follows the LRU step |
| `TerminalPool.Pool.TtlFires` | public/app.ts:3443-3454 | a timer fires only for a parked entry, and exactly that entry is disposed |
| `TerminalPool.Pool.HiddenTimerFires` | public/terminal-pool.ts:210-217 | after the page stayed hidden nothing is parked |
| `TerminalPool.Pool.Run` | public/app.ts:3443-3473 | over every run: the visible entry is the front slot and the only attached one, every created entry is pooled or disposed once, and the armed timers are those of the parked entries; none is overdue because time passes only up to the next one due |
| `DocumentPoller.Poller.DoSubscribe` | public/extension-document-polling.ts:56-76 | a listener is told the current revision at once; its subscription stays unless it throws, or it or a call of it gives it up; other consumers go only if a call gives them up |
| `DocumentPoller.Poller.DoReadOnce` | public/extension-document-polling.ts:36-54 | a read is pending and polled at once, or rejected at once |
| `DocumentPoller.Poller.DoAbortReader` | public/extension-document-polling.ts:44-48 | an aborted read is rejected once and forgotten |
| `DocumentPoller.Poller.DoSetPaused` | public/extension-document-polling.ts:78-90 | pausing clears the timer and aborts the read in flight, and resuming polls at once |
| `DocumentPoller.Poller.DoDispose` | public/extension-document-polling.ts:92-98 | dispose rejects every pending reader once, leaves no consumer and aborts the read in flight |
| `DocumentPoller.Poller.Schedule` | public/extension-document-polling.ts:111-117 | scheduling arms the timer exactly when nothing else keeps the cadence |
| `DocumentPoller.Poller.FireTimer` | public/extension-document-polling.ts:119-123 | the timer gives way to a read in flight |
| `DocumentPoller.Poller.Notify` | public/extension-document-polling.ts:130-133 | every subscription that no listener gives up is told the revision, whatever else listeners do; if they do nothing, each is told once, in order |
| `DocumentPoller.Poller.ResolveRead` | public/extension-document-polling.ts:124-146 | an older revision never replaces the current one and a stale read does nothing; after a current one all readers are settled, those that no listener gave up with the current document and others only by being rejected, every remaining subscription was told, failures are forgotten and the next poll is due after the interval |
| `DocumentPoller.Poller.RejectRead` | public/extension-document-polling.ts:135-146 | a failed read rejects exactly the pending readers and counts one failure, up to eight, unless it was aborted; the next poll is due after the backoff |
| `DocumentPoller.WaitDoubles` | public/extension-document-polling.ts:143-144 | the backoff is the interval at first and doubles with each failure up to its limit |
| `DocumentPoller.SettlementsExact` | public/extension-document-polling.ts:150-163 | settling all readers settles each pending one once, in order, and no other |
| `DocumentPoller.RoundExact` | public/extension-document-polling.ts:130-133 | a round of listeners tells each subscription once, in order, and no other |
| `DocumentPoller.Poller.Run` | public/extension-document-polling.ts:14-164 | over every interleaving: never a timer and a read together, one of them whenever an active poller has a consumer, every reader settled at most once and none after dispose, delivered revisions never decrease, nor do those that readers get |
| `Reconnector.PaceIs` | public/reconnector.ts:1-3 | the delays are 500, 900, 1620, 2916, then 5000 |
| `Reconnector.PaceBoundsAttempts` | public/reconnector.ts:47-66 | attempts that keep the pace use up the budget with the 27th |
| `Reconnector.KeepsPace` | public/reconnector.ts:57-65 | one more attempt keeps the pace, whatever the jitter |
| `Reconnector.Reconnector.Schedule` | public/reconnector.ts:47-66 | the retry fires after the jittered delay, the cap or the rest of the budget, whichever is first; a used-up budget blocks and reports |
| `Reconnector.Reconnector.Fire` | public/reconnector.ts:60-64 | firing clears the timer and connects if still wanted |
| `Reconnector.Reconnector.Cancel` | public/reconnector.ts:68-73 | a cancel interrupts a budget exactly when a retry of it was pending |
| `Reconnector.Reconnector.Connected` | public/reconnector.ts:75-86 | readiness starts a new budget |
| `Reconnector.Reconnector.Run` | public/reconnector.ts:37-97 | over every run a retry fires within its budget, exhaustion is reported once per budget, and a budget of which no pending retry was cancelled makes at most 27 attempts |
| `Reconnector.Reconnector.UseUpBudget` | public/reconnector.ts:47-66 | 27 attempts are reached, so the bound is tight |
| `Reconnector.Reconnector.CancelEachTime` | public/reconnector.ts:68-73 | scheduling and cancelling in turn interrupts the budget and makes any number of attempts |
| `GridRelayout.Relayout.Settle` | public/app-grid.ts:166-174 | every waiting callback runs with the given outcome, after ownership was released, whatever the callbacks do; if they do nothing, each runs once, in turn |
| `GridRelayout.Relayout.DoSchedule` | public/app-grid.ts:1270-1291 | a new transition supersedes the frames of the old one and inherits its callbacks |
| `GridRelayout.Relayout.DoCancel` | public/app-grid.ts:151-164 | a cancellation runs every waiting callback with false and, if they do nothing, leaves nothing hidden or unfinished |
| `GridRelayout.Relayout.FireFit` | public/app-grid.ts:1291-1341 | without an active session every callback hears true; otherwise the transition waits for exactly its ordered resizes, or reaches the reveal step without any |
| `GridRelayout.Relayout.SettleResizes` | public/app-grid.ts:1342-1349 | a superseded transition is ignored; a cancelled resize settles with false and leaves hidden sessions hidden; all-acknowledged resizes reach the reveal step, where callbacks hear true at once if nothing is hidden and else wait for two frames |
| `GridRelayout.Relayout.FireReveal` | public/app-grid.ts:1297-1317 | the second frame shows the hidden sessions and runs every waiting callback with true |
| `GridRelayout.Relayout.RunEvents` | public/app-grid.ts:1270-1351 | over every run: each added registration has run exactly once or waits with the current unfinished transition, only clean transitions reach the reveal step, and callbacks hear true only from those or from transitions without active sessions |
| `GridRelayout.OncePerRegistration` | public/app-grid.ts:1277-1277 | a callback has run or waits once per registration if and only if it was never registered while waiting |
| `GridRelayout.Relayout.ScheduleTwice` | public/app-grid.ts:1270-1291 | a callback registered twice before the settlement waits once |

## Left out

- PtySocketClient.Client.NotifyTerminalReady: the connect call it makes without a socket is in PtyConnect, and the blocked retry budget is part of whether the terminal counts as ready.
- PtyConnect.Connector.TicketAnswered: the callbacks of one ticket request run together, and the retry that a failure schedules is a separate Connects.
- The barrier after an attach_ack is not shown to be lifted: no request is sent while no dimensions are known.
- Exceptions in the class PtySocketClient.Client: PtyThrows has them on values. `onState` callbacks that re-enter. A delivery callback of the socket client may ask for resizes, disconnect or throw; listeners and settlement callbacks may call every operation of their object, and throw only as a listener's first call in the poller.
- The tracker's own `waitForSettlement` waiters, which the socket client does not use.
- What a ticket holds, URLs, probes, take-control, text input, sub-session messages and tracing of the socket client.
- localeCompare is any ranking of names; timestamps are optional integers; session and row objects carry their identity as a value.
- TriageMethods.OrderTriageSessionRows: rows and stored identities are distinct, which loading and recording guarantee; with repeated identities the source can write outside its slots.
- SessionDrop.DropIsShown: is stated for parents that come first in the automatic order, since siblings of others need not be shown by rank.
- Reconnector.Reconnector.Run: the clock is positive and never runs backwards, and floor(delay * 1.8) is exact integer arithmetic.
- TerminalPool.Pool.Run: time advances only past timers that have fired; a browser that delays timers can exceed the bound.
- GridRelayout.Relayout.RunEvents: the guards on stale animation frames are not modelled as branches, because superseding a transition cancels its frames.
- Layout and DOM work, canvases, persistence, rendering, drag gestures, widget layout, machine groups, prewarming and project ranking, which would add only easy members.
