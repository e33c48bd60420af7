# An at-most-once RPC library and a lock service, modelled in Dafny

The repository is an RPC library over TCP that promises to run each request at most once although
clients retransmit, and a lock server built on it. This project models both halves of the library,
the lock service, and the machines underneath: PDU framing, the byte codec and its buffers, the poll
thread, the blocking queue and the thread pool. It proves what they keep in every run.

Each machine appears twice. A class holds the source's fields and edits them in place, with the
source's loops; functions on values say what each critical section does, and every method is proved
equal to its function. The functions are the steps of a transition system (what one thread does
between taking a mutex and giving it up, by unlocking or by waiting), and the theorems are about all
runs of that system, under every interleaving.

## The files

- `RpcTypes` – messages and return codes.
- `XidWindow` – the client's list of finished xids and its watermark; `RpcClient` – `rpcc`.
- `ReplyWindow` – the server's reply window and the class `Rpcs` that edits it.
- `RpcSystem` – one client nonce, any number of server instances, and a network that delivers every
  message ever sent zero or more times, in any order, to any instance; the joint invariant.
- `AtMostOnce` – the theorems over runs. `Answers` – what an instance answers to each request. `Outcomes` –
  what each call sends and returns. `Watermark` – what exactly a server instance remembers, and
  exactly when it refuses. `QuietRuns` – what holds when no call times out or is cancelled;
  reply-buffer ownership. `TimeoutRuns` – two runs that show why that is needed.
- `Codec` – the wire format as functions. `WireFormat` – which byte holds what, said independently of them.
  `Marshall` – the buffer classes. `Dispatcher` – `dispatch`
  and `got_pdu` on real PDUs.
- `CancelWait` – the threads inside `cancel`, and which of them wake.
- `Timeouts` – deadlines and the retry loop of `call1`.
- `LockServer` – the lock monitor. `LockSystem` – many clients, the RPC system and the monitor together.
- `Connection`, `Framing` – one connection, and one direction of a TCP stream between two of them. `LinkSteps` –
  each step of either end in terms of frames and wire.
- `WriteRace` – the assertion of `write_cb`, between a connection's death and the poll thread.
- `SelectAio`, `PollMgr` – watched descriptors, the poll thread and `block_remove_fd`. `PollTrace` – what is
  watched, stored and called, read off the events.
- `Fifo`, `ThrPool` – the bounded queue and the poison-pill pool.

## Assumptions

The source relies on these, and the models state them as enabling conditions or preconditions.

- Client nonces are distinct and nonzero; nonces of server instances are distinct and nonzero. In the
  lock service a client nonce is also below 2^31 (it is `random()`), because it is sent as the
  `int` that `grant` compares.
- A client makes fewer than 2^32 calls: xids do not wrap, and are natural numbers here.
- Quiet runs: no call times out or is cancelled, and one bind completes before other calls, all at one
  server instance.
- Only a holder releases a lock, once per acquire; the lock server is not restarted within a run.
- The clock is monotone with positive seconds, and a wait that times out returns no earlier than its
  deadline.
- A PDU given to `send` has at least its header and fewer than 2^31 bytes.
- `block_remove_fd` is not called by the poll thread, and a descriptor is not registered again while
  it is being removed.
- A pool has at least one worker, jobs return, and its destructor runs when no other thread uses it.

## Claims that fail, and when they hold

Each comes with an input or a run on which it fails, and with the exact condition.

- A fresh request is never refused. A run that refuses one: `TimeoutRuns.TimeoutCausesRefusal`. Exactly when,
  in any run: `Watermark.RefusedIff`; never in quiet runs: `QuietRuns.NoNeedlessRefusal`.
- A trimmed entry always has its reply. A run that loses a reply: `TimeoutRuns.TimeoutLosesReply`. Exactly
  when: `QuietRuns.ReplyLostIff`; never in quiet runs: `QuietRuns.TrimmedEntriesHaveReplies`.
- `add_timespec` returns fewer than 10^9 nanoseconds. `Timeouts.UnnormalizedSum`; exactly when not:
  `Timeouts.AddUnnormalizedIff`.
- `cmp_timespec` equates equal instants. `Timeouts.EqualDeadlinesDiffer`; exactly when not:
  `Timeouts.CmpSplitsEqualInstantsIff`.
- A string is read only from inside its buffer. `Codec.LengthTestWraps`; exactly when:
  `Codec.StringReadIsSafeIff`.
- `call1` returns within its timeout. A final deadline of 10^9 nanoseconds is rejected by
  `pthread_cond_timedwait`, and the loop around it never ends: `Timeouts.SpinsForEver`. Exactly when it
  returns: `Timeouts.WaitLoop`.
- A thread that waits in `send` is awakened when its connection dies. `Framing.CloseStrandsSender` for the wait
  on `send_complete_`, `Framing.CloseStrandsQueue` for that on `send_wait_`; exactly when not:
  `Framing.StrandedOwner` and `Framing.StrandedQueue`.
- A thread in `cancel` is awakened when the last call has ended. With two such threads one can sleep on:
  `CancelWait.TwoCancellersStrand`. Exactly when: `CancelWait.StuckIff`; never with one thread in `cancel`:
  `CancelWait.SoleCancellerNotStuck`.
- `write_cb` finds its connection alive, as it asserts. `WriteRace.CloseFailsAssertion`; exactly when not:
  `WriteRace.AssertionFailsIff`.
- After `block_remove_fd(fd)` returns there is no callback on fd. The wait is in no loop, so it can return
  without a signal: `PollMgr.SpuriousWakeBreaksGrace`. Exactly when the guarantee holds, for every return:
  `PollMgr.NoCallAfterReturnIff`; always after a signalled one: `PollMgr.GracePeriod`.

## Model

| member | source | states |
|---|---|---|
| XidWindow.ReportRepresents | rpc/rpc.cc:359-382 | One report adds one xid to the set that the list stands for: front = largest n with 1..n all reported, and above it exactly the reported xids. |
| XidWindow.ReportAllRepresents | rpc/rpc.cc:359-382 | From [0], any sequence of reports, with repeats and in any order, leaves a list that stands for exactly the reported set. |
| XidWindow.WatermarkMonotone | rpc/rpc.cc:207-212 | The watermark depends only on the reported set, and grows with it. |
| XidWindow.PopFront | rpc/rpc.cc:376-381 | A pop of the compress loop never removes the element its iterator points at. |
| XidWindow.CompressRepresents | rpc/rpc.cc:376-381 | Compressing makes the front maximal and loses no reported xid above it. |
| RpcClient.Rpcc.UpdateXidRep | rpc/rpc.cc:359-382 | The list loops in place compute the reported list of the functional model. |
| RpcClient.Rpcc.InsertXid | rpc/rpc.cc:368-374 | The insertion scan puts the xid before the first greater element, or at the end. |
| RpcClient.Rpcc.CompressXids | rpc/rpc.cc:376-381 | The nested iterator loops drop the front exactly as long as its successor is listed. |
| RpcClient.Rpcc.BeginCall | rpc/rpc.cc:193-213 | First critical section of `call1`: the three refusals change nothing; otherwise a new xid, a registered call, and a header with the current server nonce and watermark. |
| RpcClient.Rpcc.OnReply | rpc/rpc.cc:334-355 | `got_pdu`: every reply reports its xid; only the first reply of a waiting call fills its slot. |
| RpcClient.Rpcc.CancelCalls | rpc/rpc.cc:162-186 | `cancel` up to its wait: fails every outstanding call, keeps their number, and waits and bars new calls iff there was any. |
| RpcClient.Rpcc.CancelAgain | rpc/rpc.cc:181-184 | `cancel` after a return of its wait: waits again as long as calls are outstanding. |
| RpcClient.Rpcc.EndCall | rpc/rpc.cc:272-296 | Last critical section of `call1`: the call leaves the table, its xid is reported, a thread in `cancel` is signalled if there is one, and the result is the reply's code or a timeout. |
| RpcClient.Rpcc.EndBind | rpc/rpc.cc:146-160 | A bind that returned 0 records the server's nonce and opens the client for calls. |
| RpcClient.Rpcc.constructor | rpc/rpc.cc:101-129 | A new client is unbound, its first xid is 1, and it has received nothing (its list is [0]). |
| ReplyWindow.CheckMeetsSpec | rpc/rpc.cc:612-663 | On a sorted window: the entries below the watermark go and no others, the verdict is NEW, INPROGRESS, DONE or FORGOTTEN exactly when the rest of the window says so, and a sorted nonempty window remains. |
| ReplyWindow.FrontNeverDecreases | rpc/rpc.cc:629-662 | With xid_rep < xid the front of a used window never decreases; whatever is trimmed or refused lies below the new front. |
| ReplyWindow.FreshRefusedIff | rpc/rpc.cc:642-645 | An unlisted request is refused iff entries at or above the watermark exist and all are newer than it. |
| ReplyWindow.TrimKeeps | rpc/rpc.cc:627-633 | A trim keeps exactly the entries at or above the watermark, sorted, and frees exactly the buffers of the others. |
| ReplyWindow.InsertKeeps | rpc/rpc.cc:649-659 | Inserting a new xid keeps the window strictly sorted and adds one entry without a reply. |
| ReplyWindow.AddReplyKeeps | rpc/rpc.cc:676-684 | `add_reply` fills the entry of its xid and changes no other. |
| ReplyWindow.Rpcs.CheckDuplicateAndUpdate | rpc/rpc.cc:620-663 | The single pass that trims, searches and tests FORGOTTEN in one loop equals the two-stage specification, for the verdict, the window and the freed buffers; other clients' windows are untouched. |
| ReplyWindow.Rpcs.ScanList | Detailed-Guidance/Lab1 Detailed Guidance.md:158-184 | The loop with the FORGOTTEN test inside agrees with the guide's form, which trims and searches first and tests the front afterwards. |
| ReplyWindow.Rpcs.TrimAndSearch | rpc/rpc.cc:627-647 | The same for the list of one client inside the map. |
| ReplyWindow.EraseFront | rpc/rpc.cc:629-633 | On a sorted list the erasing iterator is always at the front. |
| ReplyWindow.Rpcs.InsertEntry | rpc/rpc.cc:649-659 | The scan inserts the new request before the first later one, or at the end. |
| ReplyWindow.Rpcs.StoreReply | rpc/rpc.cc:670-687 | The scan stores the reply at the entry of its xid; without such an entry nothing changes. |
| ReplyWindow.Rpcs.FreeList | rpc/rpc.cc:697-699 | Frees the buffers of one window in order. |
| ReplyWindow.Rpcs.FreeReplyWindow | rpc/rpc.cc:689-703 | Frees the buffers of every window, each window once, and forgets them all. |
| RpcSystem.NewIsFresh | rpc/rpc.cc:551-559 | Client and server invariants together: NEW is never the verdict for an xid this instance has executed. |
| RpcSystem.HeaderPacked | rpc/rpc.cc:207-212 | A packed header has xid_rep < xid, and every xid up to xid_rep belongs to a reported call. |
| RpcSystem.RememberedAfter | rpc/rpc.cc:627-662 | After any check, an executed xid is listed, or lies below the front and was given up by the client. |
| RpcSystem.DispatchKeeps | rpc/rpc.cc:472-610 | One `dispatch`, for any request ever sent, keeps the instance's invariant, and every answer it sends is true. |
| RpcSystem.NewIsRemembered | rpc/rpc.cc:649-662 | The window that a NEW verdict leaves remembers the request. |
| RpcSystem.ReturnKeeps | rpc/rpc.cc:564-566 | The return of a handler keeps the instance's invariant. |
| RpcSystem.ReplyKeeps | rpc/rpc.cc:568-590 | Storing and sending a reply keeps it, and what is sent is the stored reply. |
| RpcSystem.DeliverKeeps | rpc/rpc.cc:322-356 | Delivering any reply, any number of times, keeps the client's and the calls' invariants. |
| RpcSystem.AwaitedForgottenIsDoomed | rpc/rpc.cc:601-607 | A refusal that reaches a waiting call comes from an instance that has left its xid behind unexecuted. |
| RpcSystem.DoneIsFromExec | rpc/rpc.cc:634-639 | A DONE verdict hands out the reply that an execution of the same request stored. |
| RpcSystem.ForgottenIsLost | rpc/rpc.cc:601-607 | FORGOTTEN is said only of an xid the client gave up or that this instance has not executed. |
| RpcSystem.BindGivesNonce | rpc/rpc.cc:146-160 | A bind that returns 0 yields the nonce of the instance that answered it. |
| RpcSystem.StepKeepsInv | rpc/rpc.cc:188-382 | Every event of client, server and network keeps the joint invariant. |
| RpcSystem.InitInv | rpc/rpc.cc:101-129 | A fresh client satisfies it. |
| AtMostOnce.AtMostOnceAtAnInstance | rpc/rpc.cc:551-578 | At most once: in every run one instance takes the NEW branch at most once per xid. |
| AtMostOnce.AtMostOnceAcrossRestarts | rpc/rpc.cc:496-505 | Every request but bind is executed at most once over all server instances. |
| AtMostOnce.ExecutedTookNew | rpc/rpc.cc:558-578 | Whatever is in the execution log took the NEW branch earlier in the run. |
| AtMostOnce.WindowFrontMonotone | rpc/rpc.cc:627-662 | In every run a used window stays nonempty and its front never decreases. |
| AtMostOnce.FailureIsTruthful | rpc/rpc.cc:601-607 | A call that returns `atmostonce_failure` was never and will never be executed by the instance that said so; for anything but bind, by no instance. |
| AtMostOnce.ReplyIntegrity | rpc/rpc.cc:564-600 | A call that returns a handler's code returns exactly the bytes of the single execution of its own request, from the first send or from a DONE resend. |
| AtMostOnce.OneReplyPerCall | rpc/rpc.cc:338-353 | Each call accepts at most one reply, and its result is final. |
| AtMostOnce.CancelDrains | rpc/rpc.cc:162-186 | Every call outstanding at a `cancel` returns `cancel_failure`, no call is begun afterwards, and each outstanding one can end. |
| Answers.AnswersExactly | rpc/rpc.cc:472-610 | In every run, what a request is answered with: another instance's gets `oldsrv_failure`; an unknown procedure's nothing; an executed one the stored reply once there is one and nothing before, but one `atmostonce_failure` if its xid is below the largest watermark processed; one never executed is refused iff all that is remembered is newer, and else run, with nothing sent yet. What is sent enters the network. |
| Answers.DispatchAnswered | rpc/rpc.cc:510-609 | The same table for one request, in any state that keeps the invariant. |
| Answers.ListedVerdict | rpc/rpc.cc:627-640 | An xid executed at or above that watermark gets the verdict of its execution: done with its very buffer, or in progress. |
| Answers.TrimmedVerdict | rpc/rpc.cc:642-645 | One executed below it is refused. |
| Answers.ReplyExactly | rpc/rpc.cc:564-588 | What a handler returns becomes the reply to the xid of its request, and exactly that is sent. |
| Answers.StoredIsSent | rpc/rpc.cc:564-588 | In every run, once the reply of an execution is stored, it is in the network. |
| Answers.OldSrvIsTruthful | rpc/rpc.cc:496-505 | Whoever says `oldsrv_failure` is not the instance whose nonce the request carries, and never executes the request, in any state of the run. |
| Outcomes.OutcomeExactly | rpc/rpc.cc:272-296 | In every run a call returns `cancel_failure` iff a `cancel` found it outstanding; else the code and the bytes of the reply it accepted, if any; and `timeout_failure` iff there is neither. |
| Outcomes.EveryEndHasOutcome | rpc/rpc.cc:272-284 | The end of a call removes it, reports its xid and records its result. |
| Outcomes.RefusedIffNotReady | rpc/rpc.cc:197-205 | `call1` refuses a call before the bind, a second bind, and any call of a client being destroyed, each with its code, and nothing else. |
| Outcomes.HeaderExactly | rpc/rpc.cc:207-212 | Each header in a run comes from one `Start`: its procedure and arguments, the client's nonce, the instance bound to then, and as watermark the largest n with 1..n reported then. |
| Outcomes.TransmitSendsHeader | rpc/rpc.cc:226-229 | Each transmission of a call puts that header on the wire and nothing else. |
| Outcomes.BoundToAnswerer | rpc/rpc.cc:146-160 | A bound client carries the nonce of the instance whose reply to the bind it accepted. |
| CancelWait.StuckIff | rpc/rpc.cc:181-184 | In any run, with any number of threads in `cancel`: one sleeps at an empty table iff the signal of the last outstanding call passed over it and it had no spurious wakeup since. |
| CancelWait.SoleCancellerNotStuck | rpc/rpc.cc:181-184 | With at most one thread in `cancel` whenever a call ends, nobody is left asleep at an empty table. |
| CancelWait.CancelCanGoOn | rpc/rpc.cc:181-184 | A thread in `cancel` that is not so left is awake, or a call is outstanding whose end can wake it and returns `cancel_failure`. |
| CancelWait.StuckStays | rpc/rpc.cc:203-205 | Once left, nothing but a spurious wakeup gets a thread out, because no call can begin any more. |
| CancelWait.TwoCancellersStrand | rpc/rpc.cc:281-283 | A run in which two threads are in `cancel` and the single signal of the last call leaves one asleep. |
| CancelWait.SystemStepIsClientStep | rpc/rpc.cc:146-382 | Every event of the RPC system that changes its client is a step of this machine. |
| Watermark.WindowIsExact | rpc/rpc.cc:620-663 | In every run, with R the largest watermark an instance has processed, its window lists exactly the executed xids from R on, and is not empty once R > 0. |
| Watermark.RefusedIff | rpc/rpc.cc:642-645 | In every run a request that was not executed is refused iff some executed xid is at or above R and its own watermark, and all such are above the request. |
| Watermark.StepRemembers | rpc/rpc.cc:620-687 | Each step moves window and R together. |
| QuietRuns.NoNeedlessRefusal | rpc/rpc.cc:627-662 | In quiet runs every request not yet executed is classified NEW when it arrives, in whatever order. |
| QuietRuns.FirstArrivalIsNew | rpc/rpc.cc:551-559 | In quiet runs the first arrival of every request is classified NEW. |
| QuietRuns.TrimSkipsNothing | rpc/rpc.cc:629 | The strict comparison of the trim keeps the entry at the watermark itself, so everything below the new front has been executed. |
| QuietRuns.TrimmedEntriesHaveReplies | rpc/rpc.cc:629-632 | In quiet runs every trimmed entry has its reply. |
| QuietRuns.NeverFreedTwice | rpc/rpc.cc:629-632 | In all runs no buffer is freed twice or while a window owns it. |
| QuietRuns.BuffersFreedExactlyOnce | rpc/rpc.cc:689-703 | Freeing what the windows still own completes a log without repeats; in quiet runs it holds the buffer of every stored reply. |
| QuietRuns.ReplyLostIff | rpc/rpc.cc:676-684 | `add_reply` finds no entry iff the front has passed the xid, and then the client had given the call up. |
| TimeoutRuns.TimeoutCausesRefusal | rpc/rpc.cc:272-279 | A run in which call 2 times out unsent and 4 overtakes 3: the first arrival of 3, still awaited and never executed, is refused. |
| TimeoutRuns.TimeoutLosesReply | rpc/rpc.cc:629-632 | A run in which 2 and 3 time out and 4 arrives while the handler of 2 runs: the reply of 2 ends up neither in the window nor freed. |
| Dispatcher.ReqHeaderReadIff | rpc/rpc.cc:479-487 | `dispatch` drops a PDU at the header iff it is shorter than a header. |
| Dispatcher.RequestRoundTrip | rpc/rpc.cc:210-212 | What `call1` packs is the request that `dispatch` reads, whatever the length word says. |
| Dispatcher.ReplyRoundTrip | rpc/rpc.cc:323-332 | What `dispatch` packs is the reply that `got_pdu` reads. |
| Dispatcher.FramingKeepsMessage | rpc/connection.cc:228-231 | Storing the length in the first word leaves the message alone. |
| Dispatcher.Server.Dispatch | rpc/rpc.cc:472-610 | `dispatch` on a PDU, up to the handler: drops, answers or takes the NEW branch as the protocol machine does, with the same window and freed buffers; a client with nonce 0 is treated as if its window were empty, and no window changes. |
| Dispatcher.Server.Complete | rpc/rpc.cc:564-595 | After the handler: stores the reply, except for nonce 0, and sends the same bytes. |
| Dispatcher.GotReplyPdu | rpc/rpc.cc:322-356 | `got_pdu` on a PDU: one that is too short changes nothing, any other is the machine's reply step, and every PDU is taken. |
| Timeouts.AddIsExact | rpc/rpc.cc:1016-1027 | Whenever `add_timespec` returns, it has added exactly b milliseconds. |
| Timeouts.AddUnnormalizedIff | rpc/rpc.cc:1023 | The result has 10^9 nanoseconds iff the parts add up to exactly that. |
| Timeouts.UnnormalizedSum | rpc/rpc.cc:1023 | 999 ms plus 1 ms gives 10^9 nanoseconds. |
| Timeouts.CmpNeverInverts | rpc/rpc.cc:999-1014 | `cmp_timespec` never inverts two distinct instants that `add_timespec` produced. |
| Timeouts.CmpSplitsEqualInstantsIff | rpc/rpc.cc:999-1014 | It separates equal instants iff exactly one is unnormalized. |
| Timeouts.EqualDeadlinesDiffer | rpc/rpc.cc:999-1027 | Two computed deadlines at the same instant compare unequal. |
| Timeouts.AddTimespecLoop | rpc/rpc.cc:1016-1027 | The carry loop computes the specified sum. |
| Timeouts.WaitLoop | rpc/rpc.cc:215-270 | `call1` makes at most floor(log2(to/1000 + 1)) + 1 waits, no deadline lies beyond the final one, giving up happens at that one, and it resends exactly after waits that find the channel dead; its last wait spins for ever iff the nanoseconds of the final deadline add up to 10^9 and no reply was there before that wait. |
| Timeouts.SpinsIff | rpc/rpc.cc:250-257 | The same condition for the wait that timeouts alone have led to. |
| Timeouts.NextIsNormal | rpc/rpc.cc:242 | Doubled timeouts never give a deadline of 10^9 nanoseconds. |
| Timeouts.DeadlineExactly | rpc/rpc.cc:241-246 | The k-th wait ends one second, doubled k - 1 times, after it began, or at the end of the whole timeout, whichever is earlier. |
| Timeouts.FinalIsNormalIff | rpc/rpc.cc:219 | The final deadline is well formed iff the nanosecond parts do not add up to 10^9. |
| Timeouts.SpinsForEver | rpc/rpc.cc:250-257 | A timeout of 1500 ms from exactly half past, with no reply: the second wait gets the deadline (2, 10^9). |
| Codec.RoundTrip | rpc/rpc.cc:714-949 | For every supported type, nested vectors, maps and strings included: decoding an encoding that stands anywhere in a buffer returns the value and consumes exactly the encoding. |
| Codec.CutClearsOk | rpc/rpc.cc:849-949 | A buffer that ends inside an encoding always clears `ok`. |
| Codec.OkIsSticky | rpc/rpc.cc:849-858 | Once down, `ok` stays down through any decoding. |
| Codec.ScalarRoundTrip | rpc/rpc.cc:739-808 | Integers of every width, signed and unsigned, survive the big-endian round trip. |
| Codec.StrRoundTrip | rpc/rpc.cc:928-949 | A length-prefixed string is read back whole. |
| Codec.SeqRoundTrip | rpc/marshall.h:210-230 | The vector operators are inverse to each other, starting from an empty vector. |
| Codec.PairsRoundTrip | rpc/marshall.h:232-258 | The map operators are inverse to each other. |
| Codec.StringReadIsSafeIff | rpc/rpc.cc:938-949 | The 32-bit bounds test is right iff position plus length does not wrap to a place inside the buffer, which lengths below 2^31 never do. |
| Codec.LengthTestWraps | rpc/rpc.cc:938-949 | A PDU with the length word 2^32 - 28 at its end passes the bounds test. |
| WireFormat.ScalarIsBigEndian | rpc/rpc.cc:739-808 | An integer is as many bytes as its type has, and they are its digits base 256 with the high one first. |
| WireFormat.TwosComplement | rpc/rpc.cc:754-800 | A negative number goes as its two's complement. |
| WireFormat.ReqHeaderLayout | rpc/marshall.h:82-95 | The words at 4, 8, 12, 16 and 20 are xid, procedure, client nonce, server nonce and watermark. |
| WireFormat.ReplyHeaderLayout | rpc/marshall.h:97-107 | The words at 4 and 8 are xid and return code. |
| WireFormat.StringLayout | rpc/rpc.cc:794-800 | A string is its length in a word and its bytes. |
| WireFormat.VecLayout | rpc/marshall.h:210-217 | A vector is its size and its elements in index order without gaps. |
| WireFormat.MapLayout | rpc/marshall.h:232-242 | A map is its size and its pairs in order, each key right before its value. |
| Marshall.ReqHeaderRoundTrip | rpc/marshall.h:82-95 | Unpacking a packed request header gives it back and leaves the position behind the header. |
| Marshall.ReplyHeaderRoundTrip | rpc/marshall.h:97-107 | The same for reply headers. |
| Marshall.AllRoundTrip | rpc/rpc.h:400-411 | Argument lists decode to what was encoded. |
| Marshall.AllCut | rpc/rpc.h:404-407 | A truncated argument list clears `ok`. |
| Marshall.OkDoneIffWhole | rpc/rpc.cc:839-847 | A handler's `okdone` accepts, of all buffers that agree with an encoding of its arguments as far as both go, exactly the whole encoding. |
| Marshall.MarshallBuf.RawByte | rpc/rpc.cc:714-724 | Appends one byte; doubling always makes room, and while nothing grows the bytes behind the position stay. |
| Marshall.MarshallBuf.RawBytes | rpc/rpc.cc:726-737 | Appends all bytes; the growth rule always makes room. |
| Marshall.MarshallBuf.PutU32 | rpc/rpc.cc:776-785 | Appends a word, high byte first. |
| Marshall.MarshallBuf.PutScalar | rpc/rpc.cc:739-808 | Appends an integer of any width. |
| Marshall.MarshallBuf.PutSeq | rpc/marshall.h:210-217 | The loop over a vector appends its elements in order. |
| Marshall.MarshallBuf.PutPairs | rpc/marshall.h:232-242 | The loop over a map appends key and value of each pair in order. |
| Marshall.MarshallBuf.Put | rpc/rpc.cc:739-808 | The `<<` operators append exactly the encoding, for every type. |
| Marshall.MarshallBuf.PackReqHeader | rpc/marshall.h:82-95 | Writing the header over a finished body changes only the header's bytes and never grows the buffer. |
| Marshall.MarshallBuf.PackReplyHeader | rpc/marshall.h:97-107 | The same for reply headers. |
| Marshall.UnmarshallBuf.TakeIn | rpc/rpc.cc:828-837 | Takes the other object's buffer over and is ok iff it holds a header. |
| Marshall.UnmarshallBuf.RawByte | rpc/rpc.cc:849-858 | Reads a byte, or gives 0 and clears `ok`. |
| Marshall.UnmarshallBuf.RawBytes | rpc/rpc.cc:938-949 | Reads a string of given length with the 32-bit bounds test. |
| Marshall.UnmarshallBuf.Get | rpc/rpc.cc:860-936 | The `>>` operators compute the decoder, for every type. |
| Marshall.UnmarshallBuf.GetVec | rpc/marshall.h:219-230 | The loop reads as many elements as the length says, even after the input ran out. |
| Marshall.UnmarshallBuf.GetMap | rpc/marshall.h:244-258 | The loop reads the pairs into a map that starts empty. |
| Marshall.UnmarshallBuf.UnpackReqHeader | rpc/marshall.h:174-186 | Reads the header words and moves behind the header. |
| Marshall.UnmarshallBuf.UnpackReplyHeader | rpc/marshall.h:188-197 | The same for reply headers. |
| Marshall.UnmarshallBuf.Done | rpc/rpc.cc:839-847 | `okdone`: the flag is up and the input is used up. |
| Marshall.PutAll | rpc/rpc.h:150-166 | Writing arguments one after the other appends their encodings. |
| Marshall.GetAll | rpc/rpc.h:400-405 | Reading arguments one after the other decodes the list. |
| Marshall.TestMarshall | rpc/rpctest.cc:80-111 | For every header and argument list: pack, write, hand over, read back; everything returns and `okdone` holds. |
| LockServer.StepKeepsNoLostWakeup | lock_server.cc:24-63 | Every stretch of `grant` and `release` keeps: if a lock is free and a thread sleeps on it, an awakened one is pending. |
| LockServer.NeverLosesWakeup | lock_server.cc:24-63 | So in every interleaving, with barging and spurious wakeups. |
| LockServer.FreeLockIsTaken | lock_server.cc:27-30 | A waiter for a free lock implies a thread that can take the lock now. |
| LockServer.OwnerIsStable | lock_server.cc:45-63 | A lock's owner changes only by a release in the owner's name; a release by anyone else changes nothing. |
| LockServer.GrantExactly | lock_server.cc:24-42 | A pass of `grant` returns iff the lock is not taken, and then the caller has it; else the caller sleeps; no other lock or thread is touched. |
| LockServer.ReleaseExactly | lock_server.cc:44-63 | `release` by the owner of a taken lock frees it and wakes the signalled threads; any other changes nothing. |
| LockServer.Lock.SetLocked | lock_protocol.h:50-60 | Succeeds and records the owner iff the lock is free. |
| LockServer.Lock.SetFree | lock_protocol.h:61-64 | The lock is free and owned by nobody. |
| LockServer.Server.Grant | lock_server.cc:24-42 | `grant` up to its wait or return; `Set_Locked` does not fail in it. |
| LockServer.Server.GrantAgain | lock_server.cc:27-30 | `grant` after a return of the wait. |
| LockServer.Server.ReleaseLock | lock_server.cc:44-63 | `release`; a stranger's release, or one of a free lock, changes nothing. |
| LockSystem.MutualExclusion | Detailed-Guidance/Lab1 Detailed Guidance.md:9 | Over the duplicating network no two threads, of any clients, hold the same lock, and the server's table names the holder's client. |
| LockSystem.TokenConserved | lock_server.cc:24-63 | Each lock has one token: at the server iff the lock is free, otherwise with exactly one acquire or release call that the records account for. |
| LockSystem.ReleaseFindsItsLock | lock_server.cc:44-58 | A release that runs finds its lock in the table, locked in its client's name. |
| LockSystem.ServiceLosesNoWakeup | lock_server.cc:24-63 | The monitor loses no wakeup in any run of the whole service. |
| LockSystem.GrantClaims | lock_server.cc:30-36 | A grant hands the token of a free lock to the acquire call, and disturbs no other claim. |
| LockSystem.ReleaseRunClaims | lock_server.cc:47-50 | The run of a release gives the token back to the server, and disturbs no other claim. |
| LockSystem.OkMeansGranted | lock_client.cc:29-35 | An `acquire` that returns OK was granted by the server, for that very call. |
| LockSystem.RunningReleaseHasToken | lock_client.cc:37-43 | A release that has not run holds the token of its lock, so a duplicate of an older one cannot free it. |
| LockSystem.LockArgsRead | lock_client.cc:30-33 | The handler reads back the client id and lock id that the client marshalled. |
| LockSystem.StepKeepsWorldInv | lock_server.cc:24-63 | Every event of clients, network, server and monitor keeps the joint invariant. |
| Connection.ConnObject.WritePduOnce | rpc/connection.cc:221-243 | `writepdu` in place: the length word goes in before the first byte, progress is by what `write` took, a failure marks the buffer. |
| Connection.ConnObject.PutLength | rpc/connection.cc:228-231 | Only the first word of the PDU changes, to its length. |
| Connection.ConnObject.Try | rpc/connection.cc:127-165 | The part of `send` that new and awakened callers share. |
| Connection.ConnObject.Send | rpc/connection.cc:122-166 | `send` of a new caller up to its first wait or return. |
| Connection.ConnObject.SendAgain | rpc/connection.cc:125-133 | `send` of a caller awakened on `send_wait_`. |
| Connection.ConnObject.SendDone | rpc/connection.cc:155-165 | The end of `send`: true iff alive and complete, and the buffer is given up. |
| Connection.ConnObject.OnWritable | rpc/connection.cc:168-189 | `write_cb` in place, and when it signals. |
| Connection.ConnObject.ReadPduOnce | rpc/connection.cc:245-295 | `readpdu` in place: header, size limit, body, and every failure. |
| Connection.ConnObject.ReadHeaderOnce | rpc/connection.cc:248-281 | The header half of `readpdu`: every failure, the size limit, and the new buffer with the length word in front. |
| Connection.ConnObject.ReadBodyOnce | rpc/connection.cc:283-294 | The body half: progress, EAGAIN, and giving the buffer up. |
| Connection.ConnObject.Fill | rpc/connection.cc:283-294 | A body read lands behind what the buffer holds. |
| Connection.ConnObject.Pull | rpc/connection.cc:201-210 | The reading half of `read_cb`. |
| Connection.ConnObject.Offer | rpc/connection.cc:212-218 | The half that hands a complete PDU over and keeps a refused one. |
| Connection.ConnObject.OnReadable | rpc/connection.cc:191-219 | `read_cb` in place: reads unless a PDU is waiting, hands a complete one over, keeps it if refused. |
| Framing.StepKeepsInv | rpc/connection.cc:122-295 | Every event of both ends, with any outcome of `read` and `write`, keeps the link invariant. |
| Framing.AcceptedArePrefix | rpc/connection.cc:191-295 | The PDUs handed over are the first frames sent, whole, unmerged, in order; what a live reader has read is those and its buffer, so nothing is lost or doubled. |
| Framing.StepsAreDefined | rpc/connection.cc:245-281 | The machine leaves out no reachable state: callers in `send` are counted, buffers are well formed, and a header read in full is the length of a PDU. |
| Framing.RefusedIsKept | rpc/connection.cc:212-218 | A PDU that `got_pdu` refuses stays whole and is offered again by the next callback without reading. |
| Framing.TrueMeansWritten | rpc/connection.cc:160-165 | `send` returns true only if its PDU is entirely on the wire, at its own place. |
| Framing.OneFramePerCall | rpc/connection.cc:122-136 | Each call writes at most one frame, and false means a dead connection. |
| Framing.DeadFreezesWire | rpc/connection.cc:127-133 | After death nothing more reaches the wire and no frame begins. |
| Framing.NothingFollowsHalfPdu | rpc/connection.cc:127-165 | Once the sender of a half-written PDU has returned, no byte follows. |
| Framing.NobodyOversleeps | rpc/connection.cc:155-164 | A thread asleep on `send_wait_` waits for an owner; an owner asleep has bytes left on a live connection, unless `closeconn` was called. |
| Framing.StrandedOwner | rpc/connection.cc:65-80 | A sleeping owner's connection is dead iff `closeconn` killed it, and then only a spurious wakeup gets it out. |
| Framing.CloseStrandsSender | rpc/connection.cc:65-80 | Such a run exists. |
| Framing.StrandedQueue | rpc/connection.cc:127-133 | A thread asleep on `send_wait_` at a dead connection has an owner whose next step wakes it, or which sleeps itself, and then `closeconn` was called. |
| Framing.StrandedQueueStays | rpc/connection.cc:127-164 | In the second case only a spurious wakeup of one of the two gets either out. |
| Framing.CloseStrandsQueue | rpc/connection.cc:65-80 | A run that leaves a thread asleep in each of the two waits. |
| LinkSteps.ReaderExactly | rpc/connection.cc:191-295 | In every run `read_cb` kills a living reader iff the length word failed or came short or exceeds 10485760, or the body read failed. Otherwise, a body read that would block included, the reader holds all it read since the last frame handed over, and hands over the next when it is complete and taken. |
| LinkSteps.OnlyCallbacksKillReader | rpc/connection.cc:205-209 | Nothing else kills a reader but its own end. |
| LinkSteps.PullExactly | rpc/connection.cc:245-295 | `readpdu` against the wire: whether it fails, and the part of the frame it leaves. |
| LinkSteps.SendExactly | rpc/connection.cc:122-152 | A call at a dead connection returns false; behind another frame it queues; otherwise it appends one frame, its PDU behind the length, writes what `write` takes, dies iff `write` failed, and returns true iff all was taken. |
| LinkSteps.WritableExactly | rpc/connection.cc:168-189 | `write_cb` puts on the wire what `write` takes of the bytes that the frame lacks, dies iff it had to write and `write` failed, and then, or when the frame is complete, awakens its owner. |
| LinkSteps.ResumeExactly | rpc/connection.cc:155-165 | An awakened owner waits on iff the connection lives and bytes are lacking; else it returns whether the connection lives. |
| WriteRace.AssertionFailsIff | rpc/connection.cc:168-174 | In any run, `write_cb` is entered on a dead connection iff `closeconn` or a failed `send` killed it before. |
| WriteRace.NoWriteCallbackAfterRemoval | rpc/pollmgr.cc:57-68 | Once the removal of the descriptor is signalled, the poll thread does not come to `write_cb` again. |
| WriteRace.CloseFailsAssertion | rpc/connection.cc:65-80 | A run in which `closeconn` comes between the poll thread's null test and the callback. |
| SelectAio.WatchKeepsHigh | rpc/pollmgr.cc:149-215 | `highfds_` stays the highest watched descriptor through every watch and unwatch, and a full unwatch leaves nothing and wakes the poll thread. |
| SelectAio.WatchExactly | rpc/pollmgr.cc:149-167 | After `watch_fd` a descriptor is in the read set iff it was or was just asked for with a flag other than write-only; and the same for the write set. |
| SelectAio.UnwatchExactly | rpc/pollmgr.cc:182-215 | `unwatch_fd` takes the descriptor out of the sets its flag names and nothing else; true iff it is then in neither. |
| SelectAio.HighBelowIsMax | rpc/pollmgr.cc:199-207 | What the scan is specified to find is the largest watched descriptor. |
| SelectAio.AscendingIsSet | rpc/pollmgr.cc:243-256 | The ready lists hold exactly the ready descriptors, each once. |
| SelectAio.SelectAIO.WatchFd | rpc/pollmgr.cc:149-167 | `watch_fd` in place. |
| SelectAio.SelectAIO.UnwatchFd | rpc/pollmgr.cc:182-215 | `unwatch_fd` in place, its scan finding the highest descriptor left. |
| SelectAio.SelectAIO.IsWatched | rpc/pollmgr.cc:169-180 | True iff the descriptor is watched for all the flag asks. |
| SelectAio.SelectAIO.CollectReady | rpc/pollmgr.cc:243-256 | The loop returns the ready descriptors in order, without the pipe's, from which it takes one byte. |
| PollMgr.StepKeepsInv | rpc/pollmgr.cc:45-126 | Every step of poll thread, removers and registrations keeps the invariant. |
| PollMgr.GracePeriod | rpc/pollmgr.cc:57-68 | After a signalled `block_remove_fd(fd)` returns and until fd is added again, the poll thread is in no callback on fd, enters none, and has it in no list or snapshot, whatever woke the other removers. |
| PollMgr.NoCallAfterReturnIff | rpc/pollmgr.cc:57-68 | For every return of `block_remove_fd(fd)`, signalled or spurious: no continuation of the run has a callback on fd before fd is added again iff the poll thread is not past its null test of fd's callback at the return. |
| PollMgr.SignalledReturnsSafely | rpc/pollmgr.cc:57-68 | A signalled return never finds the poll thread there. |
| PollMgr.RemovalIsNoticed | rpc/pollmgr.cc:89-106 | While a remover waits, `select` cannot sleep, and the poll thread or a remover holding the mutex can move. |
| PollMgr.PassReleasesAll | rpc/pollmgr.cc:97-103 | A pass over the pending test signals every waiting remover. |
| PollMgr.CallbackIsThereIff | rpc/pollmgr.cc:111-124 | The unlocked null test of a callback is still true at the call iff no removal of the descriptor returned in between; one that did was not signalled. |
| PollMgr.NothingMissed | rpc/pollmgr.cc:217-231 | Every watched descriptor has a callback and is in the range `select` looks at. |
| PollMgr.SpuriousWakeBreaksGrace | rpc/pollmgr.cc:66 | A run in which a wait returns without a signal, the removal returns, and the cleared callback is about to be called. |
| PollTrace.WatchedIff | rpc/pollmgr.cc:45-77 | In every run a descriptor is watched for writing, or reading, iff a registration asked for that and no removal or `del_callback` has ended it since. |
| PollTrace.StoredIff | rpc/pollmgr.cc:45-77 | The stored callback is the one of the last registration, until a removal or the `del_callback` after which nothing is watched. |
| PollTrace.SelectListsReady | rpc/pollmgr.cc:233-256 | A batch is exactly the ready descriptors without the pipe's, each once for each kind, readable ones first. |
| PollTrace.TestsNext | rpc/pollmgr.cc:114-124 | The next item of a batch comes to be called iff it has a callback, and for what it was listed. |
| PollTrace.BatchIsServed | rpc/pollmgr.cc:114-124 | Under any interleaving a batch is tested in order without omission, and the items called are exactly those that had a callback when tested. |
| PollTrace.ServeBatch | rpc/pollmgr.cc:114-124 | The two loops, as a method with the same result. |
| PollMgr.PollManager.AddCallback | rpc/pollmgr.cc:45-55 | `add_callback` in place. |
| PollMgr.PollManager.DelCallback | rpc/pollmgr.cc:70-77 | `del_callback` in place: the callback goes iff nothing is watched any more. |
| PollMgr.PollManager.BlockRemoveBegin | rpc/pollmgr.cc:63-66 | `block_remove_fd` up to its wait. |
| PollMgr.PollManager.BlockRemoveEnd | rpc/pollmgr.cc:66-67 | `block_remove_fd` after its wait. |
| PollMgr.PollManager.TopOfLoop | rpc/pollmgr.cc:97-103 | The top of `wait_loop` in place: a pending change is cleared and announced. |
| PollMgr.PollManager.HasCallback | rpc/pollmgr.cc:79-87 | True iff that callback is registered and watched for all the flag asks. |
| Fifo.RefinesBoundedFifo | rpc/fifo.h:56-92 | In every interleaving what was delivered, then what is queued, is what was accepted, in order, and no wakeup is lost. |
| Fifo.EnqKeepsInv | rpc/fifo.h:56-72 | `enq` keeps: nobody asleep for an element, or awake consumers number at least the queue; and the same for free slots. |
| Fifo.DeqKeepsInv | rpc/fifo.h:74-92 | `deq` keeps it. |
| Fifo.SpuriousKeepsInv | rpc/fifo.h:66 | Spurious wakeups keep it. |
| Fifo.SomeoneIsAwake | rpc/fifo.h:56-92 | With elements queued, or room left, waiting threads are not all asleep. |
| Fifo.EnqExactly | rpc/fifo.h:56-72 | A pass of `enq` sleeps iff the queue is full and the call blocks, is false iff full and not blocking, and true iff there is room, with the element at the end; it awakens signalled consumers and nobody else. |
| Fifo.DeqExactly | rpc/fifo.h:74-92 | A pass of `deq` sleeps iff the queue is empty and else takes the front; it awakens producers only if the queue is bounded. |
| Fifo.BlockingQueue.EnqOnce | rpc/fifo.h:60-71 | One pass of the loop of `enq` in place. |
| Fifo.BlockingQueue.DeqOnce | rpc/fifo.h:79-90 | One pass of the loop of `deq` in place. |
| ThrPool.PillsConserved | rpc/thr_pool.cc:37-50 | Dead workers, queued pills and pills to come add up to the pool size. |
| ThrPool.AllDeadMeansDrained | rpc/thr_pool.cc:45-47 | When all workers are dead the queue is empty and no pill is missing. |
| ThrPool.DrainedAtTheEnd | rpc/thr_pool.cc:35-50 | After the destructor every accepted job has run exactly once and the queue is empty. |
| ThrPool.DrainNeverStuck | rpc/thr_pool.cc:39-47 | While the destructor runs some thread of the pool can take a step. |
| ThrPool.StepKeepsPool | rpc/thr_pool.cc:6-67 | Every event keeps the pool invariant; in particular jobs precede pills. |
| ThrPool.PushPillsExactly | rpc/thr_pool.cc:39-43 | The destructor's loop queues a pill for each worker behind what is queued, or as many as there is room for; it ends with none left, or at a full queue, asleep with the next. |
| ThrPool.PushPillsIsSteps | rpc/thr_pool.cc:39-43 | It does what the machine's steps do, and counts what is left as the machine does. |
| ThrPool.ThreadPool.AddJob | rpc/thr_pool.cc:52-60 | `addJob` in place. |
| ThrPool.ThreadPool.TakeJob | rpc/thr_pool.cc:62-67 | `takeJob` in place; false exactly for a pill. |
| ThrPool.ThreadPool.PushPillsOnce | rpc/thr_pool.cc:39-43 | The destructor's loop pushes pills until it is done or must wait for space. |

## Left out

- Sockets, the accept loop, address parsing and `connect_to_dst`: foreign calls. A connection is a byte
  stream that can die at any moment.
- `EPollAIO`: it is not used (rpc/pollmgr.cc:31-32).
- Reference counts of connections and the collection of dead ones in `process_accept`; which connection a
  reply goes out on (the network may deliver any reply anyway).
- Runs of clients with nonce 0, which opt out of at-most-once; `Dispatcher.Server` covers what `dispatch` does
  for them.
- `set_reachable`, the lossy-test switches, `updatestat`, `stat`, `nacquire`, logging, `gettime.cc`.
- The `call` and `reg` overloads by arity: one argument list of typed values stands for all of them.
- The lifetime of a stored reply's buffer while an unlocked `send` still uses it: replies are values on the
  wire, and buffer ownership is tracked for storing and freeing only.
- Fairness and eventual reply: invariants and enabled steps are proved, not liveness under a scheduler.
- Handlers that block every thread of the dispatch pool.
- Restarts of the lock server, which forget all locks.
- Wrap-around of xids and of `_capa` and `_ind` as `int`s: sizes and xids are natural numbers, with the
  bounds above.
- Code that runs into an assertion of the source has no step: a header read with EAGAIN, and `write_cb` on a
  dead connection (when that is reached: `WriteRace.AssertionFailsIff`).
- Timeouts.WaitLoop: a wait that spins is an outcome at which the method stops; that the spinning thread keeps
  `ca.m`, on which `got_pdu` and `cancel` then block, is not a step of the RPC system.
- Codec.GetBytes: the bytes that the source copies from beyond its buffer when the bounds test wraps are not
  modelled; an empty string stands for them.
- RpcSystem.StepKeepsInv: covers one client nonce; windows of different clients are separate lists, and
  `Dispatcher.Server.Dispatch` proves that a request touches only its own.
- Connection.ConnObject.ReadHeaderOnce: for a length word that is negative as an `int` the source's allocation is
  too small for the header that it copies next (-4 to -1, unchecked) or fails an assertion (below -4); here the header
  fits. No peer that uses `send` writes such a word (`Framing.StepsAreDefined`).
- ThrPool.ThreadPool.PushPillsOnce: `pthread_join` is the event `Join` of the machine, not part of the method.
- Dispatcher.Server.Dispatch: the handler itself runs between `Dispatch` and `Complete`.
