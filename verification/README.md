# Broadcast core of js-module-renderer, in Dafny

This project models the in-process broadcast primitive of the
js-module-renderer JupyterLab extension (`src/index.ts`), and proves its
ordering and lifecycle properties. The extension lets a rendered JavaScript
module talk to a kernel comm and iterate over the comm's inbound messages.

- **Listener** (`AsyncListener`) is one subscriber's pull queue. It holds
  the values delivered but not yet pulled, the pending `next()` calls, and a
  closed flag. A pending `next()` promise is an abstract waiter id, and
  settling it is a `Resolution` the operation returns.
- **Hub** (`AsyncListeners`) is the broadcaster. It keeps the ordered list of
  live listeners, fans `push` and `close` out to them, creates listeners
  with `listen`, and removes a listener when its iterator's `return` runs.
- **Comm** (`CommImpl`) is the channel adapter. Inbound messages are
  buffered until the first `messages` access. That access registers a
  listener, opens the adapter and schedules a flush of the buffer. The flush
  (a microtask in the source) is the explicit step `Flush`. The module also
  holds the normalisation of inbound binary buffers.
- **Completion** (`RenderDataEvent.waitUntil`) is the completion chain. A
  promise is modelled by how it settles and when, on an abstract clock. A
  registration pairs a promise with the time of its `waitUntil` call. The
  chain is the list of registrations, and `Tail` is what `waitPromises`
  holds.

Every operation is a pure function from state to state. There are no
classes and no mutation.

Behaviours of the code that a reader might not expect, all modelled as written:

- `next()` on a closed listener returns the terminal result even when values
  are still queued. Those values are never handed out (src/index.ts:344-346).
- `close` on the broadcaster closes the live listeners but does not remove
  them from the live list (src/index.ts:286-290). Only the iterator's
  `return` removes a listener.
- The adapter keeps no closed flag (src/index.ts:245-247). A comm closed
  before the first `messages` access yields a consumer listener that
  receives the buffered messages, but that close does not reach it; only a
  later close would end its iteration
  (`Comm.CloseBeforeFirstAccessIsForgotten`).
- The buffered messages come before later ones only if the flush microtask
  (src/index.ts:252-257) runs before the next inbound message is handled. A
  message handled in between overtakes the buffer
  (`Comm.InboundBeforeFlushOvertakes`).

## Model

| member | source | states |
|---|---|---|
| Listener.Fresh | src/index.ts:308-317 | A new listener is open, with an empty queue and no waiters. |
| Listener.Push | src/index.ts:319-331 | A closed listener ignores the push. Otherwise the value goes to the oldest waiter or to the end of the queue: handed-out values plus the new queue equal the old queue plus the value. Waiters are served oldest first, and queue and waiters never become both non-empty. |
| Listener.Close | src/index.ts:333-339 | Every pending waiter, in order, is resolved with the terminal result. Afterwards no waiters remain, the listener is closed, and the queue is untouched. |
| Listener.Next | src/index.ts:343-356 | A closed listener answers with the terminal result at once, even with values queued. An open one answers with the oldest queued value, or parks the call as a waiter exactly when the queue is empty. |
| Listener.Return | src/index.ts:357-361 | The listener is marked closed and the caller gets the terminal result. Pending waiters are left unresolved. |
| Listener.OpenRunConserves | src/index.ts:319-355 | Over any run of pushes and pulls on an open listener, every pushed value is handed out or still queued, and every `next` call is answered or still waiting, both in call order. All answers are values. |
| Listener.FifoDelivery | src/index.ts:319-355 | From a fresh listener, the k-th `next` call gets the k-th pushed value. The number answered is the smaller of the two counts. The surplus is queued values or waiting calls, never both. |
| Listener.PushesAppend | src/index.ts:319-331 | Pushes on an open listener with no waiters append to its queue in order and resolve nothing. |
| Listener.ClosedIsTerminal | src/index.ts:319-361 | On a closed listener, pushes, pulls and returns change nothing. Every `next` is answered at once, in call order, with the terminal result. |
| Listener.CloseTwice | src/index.ts:333-339 | Closing a listener a second time settles no waiter and leaves it as the first close did. |
| Hub.Empty | src/index.ts:278-279 | A new broadcaster has no listeners. |
| Hub.Push | src/index.ts:281-285 | Exactly the live listeners receive the value. Other listeners and the live list are untouched. With no live listeners the push is a no-op. The resolutions are exactly those the live listeners perform, in live-list order: each waiter a live listener serves gets the value, and no other waiter is resolved. |
| Hub.Close | src/index.ts:286-290 | Exactly the live listeners are closed, and the live list is unchanged. The resolutions are exactly the live listeners' waiters settled with the terminal result, in live-list order. A removed listener's waiters are never resolved. |
| Hub.CloseTwice | src/index.ts:286-290 | Closing the broadcaster twice is the same as closing it once: the second close resolves nothing and changes no listener. |
| Hub.Listen | src/index.ts:291-300 | A new open, empty listener with an unused id joins the end of the live list. Nothing else changes, so the new listener has no backlog of earlier pushes. |
| Hub.Remove | src/index.ts:292-297 | The remover splices the id out of the live list, and the others keep their relative order. An id not in the list leaves it unchanged, which is the -1 case. |
| Hub.Return | src/index.ts:357-361 | `return` through the hub takes the listener out of the live list and marks it closed. Its queue and waiters are kept, the caller gets the terminal result, and every other listener is unchanged. |
| Hub.Next | src/index.ts:341-356 | `next` on one listener changes only that listener, and the live list stays the same. |
| Hub.Projection | src/index.ts:281-300 | After any run of broadcaster calls, a listener is in exactly the state it would reach from the pushes and closes made while it was live plus its own pulls and returns. |
| Hub.RemovedStaysRemoved | src/index.ts:292-298 | A listener that has left the live list never rejoins it. From then on it sees only its own pulls and returns. |
| Hub.PushAllFansOut | src/index.ts:253-255 | Pushing a sequence of values gives each live listener that same sequence of pushes and leaves the other listeners alone. |
| Comm.BytesOf | src/index.ts:215-224 | A view becomes its bytes `[byteOffset, byteOffset+byteLength)`, and a raw buffer becomes all of its bytes. |
| Comm.Normalize | src/index.ts:212-227 | The normalised buffer list always exists. It is empty when the message has no buffers, and otherwise has one byte sequence per buffer, in order. |
| Comm.Create | src/index.ts:205-208 | A new adapter is not open, has no flush pending, an empty buffer and no listeners. |
| Comm.OnMsg | src/index.ts:211-243 | Before opening, the normalised message is appended to the buffer, nothing reaches the broadcaster and nothing is resolved. Once open, it is pushed to exactly the live listeners, and the resolutions are the broadcaster push's, each carrying that message. |
| Comm.Close | src/index.ts:245-247 | Inbound close, and local close once the transport confirms, closes every live listener as the listener's own close does, and leaves listeners off the live list untouched. The resolutions are the broadcaster close's: every waiter of a live listener gets the terminal result. Before the first access it changes nothing. |
| Comm.CloseTwice | src/index.ts:245-247 | A second close of the channel, inbound or local, resolves nothing and leaves the adapter as the first close did. |
| Comm.Messages | src/index.ts:269-275 | The accessor registers a new listener at the end of the live list and leaves the adapter open. It schedules a flush only on the first access. |
| Comm.Flush | src/index.ts:250-258 | The flush pushes every buffered message, in arrival order, to each live listener, and its resolutions are those pushes' resolutions, each carrying a buffered message. It then empties the buffer, and no flush stays pending. |
| Comm.BufferedWhileClosed | src/index.ts:229-242 | Before opening, a run of inbound messages only grows the buffer, in arrival order. |
| Comm.PushedWhileOpen | src/index.ts:232-236 | Once open, a run of inbound messages is pushed to the broadcaster in arrival order, and the buffer is untouched. |
| Comm.FirstAccessGetsBuffer | src/index.ts:250-275 | The first access followed by the flush leaves the new listener as the only live one, holding the whole buffer in order. The buffer is then empty. |
| Comm.ArrivalOrder | src/index.ts:229-275 | Before opening nothing reaches the broadcaster. For a consumer iterating with `for await`, which may call `next()` before the flush runs, and with later messages and later calls interleaved in any way, the k-th call is answered with the k-th message in arrival order, buffered ones first. Each message is handed out once, and the surplus is queued messages or waiting calls, never both. |
| Comm.SessionIsListenerRun | src/index.ts:250-275 | In such a session the consumer's listener is the only live one, so it ends in the state, and the session logs exactly the resolutions, of one listener run: the early `next()` calls, then a push per buffered message, then the later messages and calls. |
| Comm.InboundBeforeFlushOvertakes | src/index.ts:250-258 | A message handled between the first access and the flush is queued ahead of the buffered messages. |
| Comm.CloseBeforeFirstAccessIsForgotten | src/index.ts:245-247 | If the comm closes before the first access, the consumer's listener still gets the buffered messages but stays open. |
| Comm.CloseEndsIteration | src/index.ts:245-247 | After the channel closes, each `next()` a live consumer had pending gets the terminal result, a later inbound message neither reaches its listener nor resolves anything, and a later `next()` is answered at once with the terminal result. |
| Completion.Start | src/index.ts:135 | The chain starts with nothing registered and is already fulfilled. |
| Completion.Then | src/index.ts:143 | `prev.then(() => p)` is created at the `waitUntil` call and settles no earlier than that call and no earlier than `prev`. A rejection of `prev` passes through with its reason, settling at the later of the two. Otherwise the result takes `p`'s outcome and settles at the latest of the call, `prev` and `p`. |
| Completion.Tail | src/index.ts:135-144 | `waitPromises` with nothing registered is the already fulfilled `Promise.resolve()`. With registrations, it never settles before the first registered promise does, nor before the last `waitUntil` call. |
| Completion.TailFromRegistrations | src/index.ts:135-144 | The chain adds no outcome and no timing of its own. A rejection is the rejection of some registered promise. The chain settles no earlier than the latest call and no later than the latest call or settle time, exactly at one registration's call or settle time. |
| Completion.WaitUntil | src/index.ts:142-144 | Registrations are kept in call order with their call times, and the tail becomes `previousTail.then(() => p)` created at that call. |
| Completion.AllOkFulfils | src/index.ts:135-144 | When every registered promise is fulfilled, the chain is fulfilled exactly at the later of the latest `waitUntil` call and the latest settle time. |
| Completion.RejectionIsFinal | src/index.ts:142-144 | Once the tail has rejected, later registrations do not change the reason. Their promises' settlements play no part; only a later call delays the tail, to that call's time. |
| Completion.FirstRejectionWins | src/index.ts:142-144 | The first rejected registration decides the chain's reason. The chain settles exactly when that promise and the earlier ones have settled and every call has been made; the later promises' settlements play no part. |
| Completion.ChainOutcome | src/index.ts:134-145 | The chain is fulfilled exactly when every registration is. Otherwise it rejects with the reason of the first rejected registration. |

## Left out

- JupyterLab plugin glue is not modelled, because it is host lifecycle, module loading and DOM work. This covers the extension's `activate`, `RendererFactory`, kernel tracking, and `OutputWidget.renderModel` with its dynamic import and error logging (src/index.ts:27-132).
- The kernel comm transport is not modelled. This covers `createComm`, `comm.open()`, the "not supported" error, and `CommImpl.send` (src/index.ts:158-176, 260-262). Each only forwards to the transport and awaits it.
- The local `close()` (src/index.ts:264-267) is modelled only by its effect after the transport confirms, which is `Comm.Close`. A rejected transport close is not modelled.
- The `dataUpdates` and `nodeUpdates` stubs (src/index.ts:188-202) are not modelled, because they only return done or throw. `src/dynamic-import-polyfill.d.ts` and `src/extensibleRenderer.ts` are declarations only.
- Promise and microtask timing is not modelled. Resolvers are waiter ids chosen by the caller. The flush microtask is an explicit step. Registered completion promises are given settlements on an abstract clock, and the extra ticks that `then` adds are ignored.
- The `if (next)` guards (src/index.ts:325, 349) are not modelled. A queued result object and a resolver function are always truthy, so the guards never fail.
- Typed arrays are modelled as byte sequences. The aliasing between a `Uint8Array` and its underlying buffer is not modelled. A view is assumed to lie inside its buffer (`Comm.InBounds`), which typed arrays guarantee.
- Message payloads are opaque strings, because the adapter never looks inside them.
- Hub.Projection: the contract relates listener states only, not the resolution log.
- Comm.ArrivalOrder: only `next()` calls come between the first access and the flush. A message arriving there overtakes the buffer, which `Comm.InboundBeforeFlushOvertakes` states. A second consumer and an early `return` are not part of this theorem; `Hub.Projection` and `Hub.RemovedStaysRemoved` cover them in general.
- Every promise passed to `waitUntil` is assumed to settle at some time on the clock. A promise that never settles, which in the source leaves `waitPromises` pending unless an earlier registration rejected, cannot be expressed. After a rejection the tail does not depend on later promises' settlements (`Completion.RejectionIsFinal`), which is the part of that case the model does cover.
