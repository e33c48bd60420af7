/** The poll thread and the threads that register and remove callbacks (rpc/pollmgr.cc:45-126). The
    mutex `m_` is held only by a remover between its two halves, so steps that take it wait for that;
    the poll thread's snapshot, `select` and callbacks run without it. */
module PollMgr {
  import opened SelectAio

  /** A thread in `block_remove_fd`: holding `m_` with the descriptor unwatched but `pending_change_`
      not yet set, waiting on `changedone_c_`, or about to clear the callback, because it was signalled
      or because its wait, which is in no loop, returned without a signal. */
  datatype Phase = Marking | Waiting | Signalled | Unsignalled
  datatype Remover = Remover(fd: nat, phase: Phase)

  /** Where the poll thread is: before its test of `pending_change_`, before the snapshot, in `select`
      on a snapshot, between callbacks with lists still to serve, past the null test of a read or
      (`wr`) write callback, or inside the callback. */
  datatype Pc =
    | Top
    | Snap
    | InSelect(rs: set<nat>, ws: set<nat>, high: nat)
    | Lists(readable: seq<nat>, writable: seq<nat>)
    | Checked(fd: nat, wr: bool, readable: seq<nat>, writable: seq<nat>)
    | Calling(fd: nat, wr: bool, readable: seq<nat>, writable: seq<nat>)

  /** `retired` records the descriptors for which a signalled removal has returned and that were not
      added since; the code has no such variable. */
  datatype Poll = Poll(
    aio: Aio,
    callbacks: map<nat, nat>,
    pending: bool,
    removers: map<nat, Remover>,
    pc: Pc,
    retired: set<nat>)

  datatype Event =
    | Add(fd: nat, flag: PollFlag, ch: nat)
    | RemoveBegin(t: nat, fd: nat)
    | RemovePend(t: nat)
    | Spurious(t: nat)
    | RemoveReturn(t: nat)
    | TestPending
    | Snapshot
    | Select(r: set<nat>, w: set<nat>)
    | Interrupted
    | CheckNext
    | Call
    | Del(flag: PollFlag)
    | Return

  function Start(pipeFd: nat): Poll {
    Poll(NewAio(pipeFd), map[], false, map[], Top, {})
  }

  predicate MutexFree(p: Poll) {
    forall t | t in p.removers :: !p.removers[t].phase.Marking?
  }

  function SignalAll(rs: map<nat, Remover>): map<nat, Remover> {
    map t | t in rs :: if rs[t].phase.Waiting? then rs[t].(phase := Signalled) else rs[t]
  }

  /** A descriptor is not registered again while its removal is under way: it is still open, and its
      connection is dead. `block_remove_fd` is not called by the poll thread. */
  predicate Enabled(p: Poll, e: Event) {
    match e
    case Add(fd, flag, ch) =>
      && MutexFree(p) && fd != p.aio.pipeFd && (fd in p.callbacks ==> p.callbacks[fd] == ch)
      && forall t | t in p.removers :: p.removers[t].fd != fd
    case RemoveBegin(t, fd) => MutexFree(p) && t !in p.removers && fd != p.aio.pipeFd
    case RemovePend(t) => t in p.removers && p.removers[t].phase.Marking?
    case Spurious(t) => t in p.removers && p.removers[t].phase.Waiting?
    case RemoveReturn(t) =>
      MutexFree(p) && t in p.removers && (p.removers[t].phase.Signalled? || p.removers[t].phase.Unsignalled?)
    case TestPending => p.pc.Top? && MutexFree(p)
    case Snapshot => p.pc.Snap?
    case Select(r, w) =>
      && p.pc.InSelect? && r <= p.pc.rs && w <= p.pc.ws && r + w != {}
      && (forall fd | fd in r + w :: fd <= p.pc.high)
      && (p.aio.pipeFd in r <==> p.aio.pipe > 0)
    case Interrupted => p.pc.InSelect?
    case CheckNext => p.pc.Lists?
    case Call => p.pc.Checked?
    case Del(_) => p.pc.Calling? && MutexFree(p)
    case Return => p.pc.Calling?
  }

  function Step(p: Poll, e: Event): Poll
    requires Enabled(p, e)
  {
    match e
    case Add(fd, flag, ch) =>
      p.(aio := Watch(p.aio, fd, flag), callbacks := p.callbacks[fd := ch], retired := p.retired - {fd})
    case RemoveBegin(t, fd) =>
      p.(aio := Unwatch(p.aio, fd, RdWr).0, removers := p.removers[t := Remover(fd, Marking)])
    case RemovePend(t) =>
      p.(pending := true, removers := p.removers[t := Remover(p.removers[t].fd, Waiting)])
    case Spurious(t) => p.(removers := p.removers[t := Remover(p.removers[t].fd, Unsignalled)])
    case RemoveReturn(t) =>
      var Remover(fd, phase) := p.removers[t];
      p.(callbacks := p.callbacks - {fd}, removers := p.removers - {t},
         retired := if phase.Signalled? then p.retired + {fd} else p.retired)
    case TestPending =>
      p.(pc := Snap, pending := false, removers := if p.pending then SignalAll(p.removers) else p.removers)
    case Snapshot => p.(pc := InSelect(p.aio.rfds, p.aio.wfds, p.aio.highfds))
    case Select(r, w) =>
      var readable := Ascending(r - {p.aio.pipeFd}, p.pc.high + 1);
      var writable := Ascending(w, p.pc.high + 1);
      p.(aio := p.aio.(pipe := if p.aio.pipeFd in r then p.aio.pipe - 1 else p.aio.pipe),
         pc := if readable == [] && writable == [] then Top else Lists(readable, writable))
    case Interrupted => p.(pc := Top)
    case CheckNext =>
      var (rs, ws) := (p.pc.readable, p.pc.writable);
      if rs != [] then
        p.(pc := if rs[0] in p.callbacks then Checked(rs[0], false, rs[1..], ws) else Lists(rs[1..], ws))
      else if ws != [] then
        p.(pc := if ws[0] in p.callbacks then Checked(ws[0], true, rs, ws[1..]) else Lists(rs, ws[1..]))
      else p.(pc := Top)
    case Call => p.(pc := Calling(p.pc.fd, p.pc.wr, p.pc.readable, p.pc.writable))
    case Del(flag) =>
      var (aio, gone) := Unwatch(p.aio, p.pc.fd, flag);
      p.(aio := aio, callbacks := if gone then p.callbacks - {p.pc.fd} else p.callbacks)
    case Return => p.(pc := Lists(p.pc.readable, p.pc.writable))
  }

  ghost predicate Run(pipeFd: nat, ss: seq<Poll>, es: seq<Event>) {
    && |ss| == |es| + 1 && ss[0] == Start(pipeFd)
    && forall i | 0 <= i < |es| :: Enabled(ss[i], es[i]) && ss[i + 1] == Step(ss[i], es[i])
  }

  // ---- Invariant ----

  /** The descriptors the poll thread may still call back without looking at the sets again. */
  ghost predicate Handles(pc: Pc, fd: nat) {
    match pc
    case Top => false
    case Snap => false
    case InSelect(rs, ws, _) => fd in rs || fd in ws
    case Lists(r, w) => fd in r || fd in w
    case Checked(x, _, r, w) => fd == x || fd in r || fd in w
    case Calling(x, _, r, w) => fd == x || fd in r || fd in w
  }

  predicate BeforeSelectReturns(pc: Pc) {
    pc.Snap? || pc.InSelect?
  }

  ghost predicate RemoverInv(p: Poll) {
    && (forall t, u | t in p.removers && u in p.removers && t != u ::
          !(p.removers[t].phase.Marking? && p.removers[u].phase.Marking?))
    && (forall t | t in p.removers :: RemoverOk(p, p.removers[t]))
    && (forall fd | fd in p.retired :: fd !in Watched(p.aio) && !Handles(p.pc, fd) && fd !in p.callbacks)
  }

  ghost predicate RemoverOk(p: Poll, r: Remover) {
    && r.fd !in Watched(p.aio) && r.fd != p.aio.pipeFd
    && match r.phase
       case Marking => BeforeSelectReturns(p.pc) ==> p.aio.pipe > 0
       case Waiting => p.pending
       case Signalled => !Handles(p.pc, r.fd)
       case Unsignalled => true
  }

  /** The poll thread cannot fall asleep on a removal: a byte waits in the pipe it selects on. */
  ghost predicate WakeInv(p: Poll) {
    && (p.pending && BeforeSelectReturns(p.pc) ==> p.aio.pipe > 0)
    && (p.pc.InSelect? ==> p.aio.pipeFd in p.pc.rs && p.aio.pipeFd !in p.pc.ws
                           && forall fd | fd in p.pc.rs + p.pc.ws :: fd <= p.pc.high)
  }

  ghost predicate CallbackInv(p: Poll) {
    && (forall fd | fd in Watched(p.aio) && fd != p.aio.pipeFd :: fd in p.callbacks)
    && p.aio.pipeFd !in p.callbacks
    && (!p.pc.InSelect? ==> !Handles(p.pc, p.aio.pipeFd))
  }

  ghost predicate Inv(p: Poll) {
    AioInv(p.aio) && RemoverInv(p) && WakeInv(p) && CallbackInv(p)
  }

  /** Steps of the poll thread alone. */
  predicate PollStep(e: Event) {
    e.TestPending? || e.Snapshot? || e.Select? || e.Interrupted? || e.CheckNext? || e.Call? || e.Return?
  }

  /** The poll thread never takes on a descriptor that it was not handling, except in a snapshot. */
  lemma HandlesShrinks(p: Poll, e: Event)
    requires Enabled(p, e)
    ensures var p1 := Step(p, e);
      forall fd | Handles(p1.pc, fd) :: Handles(p.pc, fd) || (e.Snapshot? && fd in Watched(p.aio))
    ensures e.Select? && p.aio.pipeFd !in p.pc.ws ==> !Handles(Step(p, e).pc, p.aio.pipeFd)
  {
    if e.Select? {
      AscendingIsSet(e.r - {p.aio.pipeFd}, p.pc.high + 1);
      AscendingIsSet(e.w, p.pc.high + 1);
    }
    hide Ascending, AioInv, Unwatch, Watch;
  }

  lemma PollStepKeepsRemovers(p: Poll, e: Event)
    requires Inv(p) && Enabled(p, e) && PollStep(e)
    ensures RemoverInv(Step(p, e))
  {
    HandlesShrinks(p, e);
    hide Ascending, AioInv, CallbackInv;
    var p1 := Step(p, e);
    assert Watched(p1.aio) == Watched(p.aio) && p1.aio.pipeFd == p.aio.pipeFd && p1.callbacks == p.callbacks;
    forall t | t in p1.removers ensures RemoverOk(p1, p1.removers[t]) {
      assert RemoverOk(p, p.removers[t]);
    }
  }

  lemma PollStepKeepsInv(p: Poll, e: Event)
    requires Inv(p) && Enabled(p, e) && PollStep(e)
    ensures Inv(Step(p, e))
  {
    PollStepKeepsRemovers(p, e);
    HandlesShrinks(p, e);
    hide Ascending, RemoverInv;
    assert Watched(Step(p, e).aio) == Watched(p.aio);
  }

  lemma AioStepKeepsRemovers(p: Poll, e: Event)
    requires Inv(p) && Enabled(p, e) && (e.Add? || e.RemoveBegin? || e.Del?)
    ensures RemoverInv(Step(p, e))
  {
    hide HighBelow, AioInv;
    var p1 := Step(p, e);
    assert !e.Add? ==> Watched(p1.aio) <= Watched(p.aio);
    assert e.Add? ==> forall fd | fd in Watched(p1.aio) :: fd in Watched(p.aio) || fd == e.fd;
    forall t | t in p1.removers ensures RemoverOk(p1, p1.removers[t]) {
      assert t in p.removers ==> RemoverOk(p, p.removers[t]);
    }
  }

  lemma AioStepKeepsInv(p: Poll, e: Event)
    requires Inv(p) && Enabled(p, e) && (e.Add? || e.RemoveBegin? || e.Del?)
    ensures Inv(Step(p, e))
  {
    AioStepKeepsRemovers(p, e);
    var fd := if e.Del? then p.pc.fd else e.fd;
    var flag := if e.RemoveBegin? then RdWr else e.flag;
    WatchKeepsHigh(p.aio, fd, flag);
    hide AioInv, HighBelow, RemoverInv;
  }

  lemma RemoverStepKeepsInv(p: Poll, e: Event)
    requires Inv(p) && Enabled(p, e) && (e.RemovePend? || e.Spurious? || e.RemoveReturn?)
    ensures Inv(Step(p, e))
  {
    hide AioInv;
  }

  lemma StepKeepsInv(p: Poll, e: Event)
    requires Inv(p) && Enabled(p, e)
    ensures Inv(Step(p, e))
  {
    hide Inv, Step, Enabled;
    if PollStep(e) {
      PollStepKeepsInv(p, e);
    } else if e.RemovePend? || e.Spurious? || e.RemoveReturn? {
      RemoverStepKeepsInv(p, e);
    } else {
      AioStepKeepsInv(p, e);
    }
  }

  // ---- Theorems ----

  lemma {:induction false} RunInv(pipeFd: nat, ss: seq<Poll>, es: seq<Event>, n: nat)
    requires Run(pipeFd, ss, es) && n <= |es|
    ensures Inv(ss[n])
  {
    if n > 0 {
      RunInv(pipeFd, ss, es, n - 1);
      hide Inv, Step, Enabled;
      StepKeepsInv(ss[n - 1], es[n - 1]);
      assert ss[n] == Step(ss[n - 1], es[n - 1]);
    }
  }

  lemma {:induction false} StaysRetired(pipeFd: nat, ss: seq<Poll>, es: seq<Event>, i: nat, j: nat, fd: nat)
    requires Run(pipeFd, ss, es) && i <= j <= |es| && fd in ss[i].retired
    requires forall k | i <= k < j && es[k].Add? :: es[k].fd != fd
    ensures fd in ss[j].retired
  {
    if i < j {
      StaysRetired(pipeFd, ss, es, i, j - 1, fd);
      assert ss[j] == Step(ss[j - 1], es[j - 1]);
    }
  }

  /** The grace period: once a `block_remove_fd(fd)` that was signalled has returned, and until fd is
      added again, the poll thread is in no callback on fd, enters none, and holds fd in no list or
      snapshot; whatever woke the other removers. */
  lemma GracePeriod(pipeFd: nat, ss: seq<Poll>, es: seq<Event>, i: nat, j: nat)
    requires Run(pipeFd, ss, es) && i < j <= |es| && es[i].RemoveReturn?
    requires ss[i].removers[es[i].t].phase.Signalled?
    requires var fd := ss[i].removers[es[i].t].fd;
      forall k | i < k < j && es[k].Add? :: es[k].fd != fd
    ensures var fd := ss[i].removers[es[i].t].fd;
      !Handles(ss[j].pc, fd) && fd !in Watched(ss[j].aio) && fd !in ss[j].callbacks
  {
    var fd := ss[i].removers[es[i].t].fd;
    assert Enabled(ss[i], es[i]) && ss[i + 1] == Step(ss[i], es[i]);
    StaysRetired(pipeFd, ss, es, i + 1, j, fd);
    RunInv(pipeFd, ss, es, j);
    hide Run, Step, Enabled, AioInv;
  }

  /** The poll thread is past the null test of fd's callback. */
  predicate AtCall(pc: Pc, fd: nat) {
    (pc.Checked? || pc.Calling?) && pc.fd == fd
  }

  /** The poll thread is inside a callback on fd in state j, with fd not added since event i. */
  ghost predicate CallsAt(ss: seq<Poll>, es: seq<Event>, i: nat, j: nat, fd: nat) {
    && i < j < |ss| == |es| + 1
    && ss[j].pc.Calling? && ss[j].pc.fd == fd
    && forall k | i < k < j && es[k].Add? :: es[k].fd != fd
  }

  /** (ss', es') is a run that agrees with (ss, es) up to and including event i. */
  ghost predicate Continues(pipeFd: nat, ss: seq<Poll>, es: seq<Event>, i: nat, ss': seq<Poll>, es': seq<Event>) {
    && Run(pipeFd, ss', es')
    && i < |es| && |ss| == |es| + 1 && i < |es'|
    && es'[..i + 1] == es[..i + 1] && ss'[..i + 2] == ss[..i + 2]
  }

  predicate Adds(e: Event, fd: nat) {
    e.Add? && e.fd == fd
  }

  /** Only a registration brings a cleared callback back, and only a present one can come to a call. */
  lemma ClearedStep(p: Poll, e: Event, fd: nat)
    requires Enabled(p, e) && fd !in p.callbacks && !Adds(e, fd)
    ensures fd !in Step(p, e).callbacks
    ensures !AtCall(p.pc, fd) ==> !AtCall(Step(p, e).pc, fd)
  {
    hide Unwatch, Watch, Ascending;
  }

  /** A cleared callback that is not about to be called stays uncalled until the descriptor is added. */
  lemma {:induction false} ClearedStays(pipeFd: nat, ss: seq<Poll>, es: seq<Event>, i: nat, j: nat, fd: nat)
    requires Run(pipeFd, ss, es) && i <= j <= |es|
    requires fd !in ss[i].callbacks && !AtCall(ss[i].pc, fd)
    requires forall k | i <= k < j && es[k].Add? :: es[k].fd != fd
    ensures fd !in ss[j].callbacks && !AtCall(ss[j].pc, fd)
  {
    hide Step, Enabled;
    if i < j {
      ClearedStays(pipeFd, ss, es, i, j - 1, fd);
      assert Enabled(ss[j - 1], es[j - 1]) && ss[j] == Step(ss[j - 1], es[j - 1]);
      ClearedStep(ss[j - 1], es[j - 1], fd);
    }
  }

  /** Exactly when a return of `block_remove_fd(fd)`, signalled or not, gives the guarantee: no
      continuation of the run has a callback on fd before fd is added again iff the poll thread is not
      past its test of fd's callback at the moment of the return. */
  lemma NoCallAfterReturnIff(pipeFd: nat, ss: seq<Poll>, es: seq<Event>, i: nat)
    requires Run(pipeFd, ss, es) && i < |es| && es[i].RemoveReturn?
    ensures var fd := ss[i].removers[es[i].t].fd;
      (forall ss', es' | Continues(pipeFd, ss, es, i, ss', es') :: forall j :: !CallsAt(ss', es', i, j, fd))
      <==> !AtCall(ss[i].pc, fd)
  {
    hide Unwatch, Watch, Ascending;
    var fd := ss[i].removers[es[i].t].fd;
    assert Enabled(ss[i], es[i]) && ss[i + 1] == Step(ss[i], es[i]);
    if AtCall(ss[i].pc, fd) {
      CallContinuation(pipeFd, ss, es, i, fd);
    } else {
      forall ss', es', j: nat | Continues(pipeFd, ss, es, i, ss', es') && CallsAt(ss', es', i, j, fd) ensures false {
        assert ss'[i + 1] == ss'[..i + 2][i + 1] == ss[i + 1];
        ClearedStays(pipeFd, ss', es', i + 1, j, fd);
      }
    }
  }

  /** The continuation in which the poll thread goes on with the call it stands at. */
  lemma CallContinuation(pipeFd: nat, ss: seq<Poll>, es: seq<Event>, i: nat, fd: nat)
    requires Run(pipeFd, ss, es) && i < |es| && AtCall(ss[i + 1].pc, fd)
    ensures exists ss', es', j :: Continues(pipeFd, ss, es, i, ss', es') && CallsAt(ss', es', i, j, fd)
  {
    hide Unwatch, Watch, Ascending;
    var ss1, es1 := ss[..i + 2], es[..i + 1];
    assert Run(pipeFd, ss1, es1);
    if ss[i + 1].pc.Calling? {
      assert Continues(pipeFd, ss, es, i, ss1, es1) && CallsAt(ss1, es1, i, i + 1, fd);
    } else {
      var ss', es' := ss1 + [Step(ss[i + 1], Call)], es1 + [Call];
      forall k | 0 <= k < |es'| ensures Enabled(ss'[k], es'[k]) && ss'[k + 1] == Step(ss'[k], es'[k]) {
        assert k < i + 1 ==> ss'[k] == ss[k] && es'[k] == es[k] && ss'[k + 1] == ss[k + 1];
      }
      assert Run(pipeFd, ss', es');
      assert ss'[..i + 2] == ss1 && es'[..i + 1] == es1;
      assert Continues(pipeFd, ss, es, i, ss', es') && CallsAt(ss', es', i, i + 2, fd);
    }
  }

  /** A signalled return never finds the poll thread there, so the guarantee holds for it. */
  lemma SignalledReturnsSafely(pipeFd: nat, ss: seq<Poll>, es: seq<Event>, i: nat)
    requires Run(pipeFd, ss, es) && i < |es| && es[i].RemoveReturn?
    requires ss[i].removers[es[i].t].phase.Signalled?
    ensures !AtCall(ss[i].pc, ss[i].removers[es[i].t].fd)
  {
    RunInv(pipeFd, ss, es, i);
    hide AioInv;
    assert RemoverOk(ss[i], ss[i].removers[es[i].t]);
  }

  /** While a remover waits, `select` cannot sleep: the pipe is in its snapshot and has a byte. So the
      poll thread always has a step, unless a remover is between its two halves, and then that has. */
  lemma RemovalIsNoticed(pipeFd: nat, ss: seq<Poll>, es: seq<Event>, n: nat, t: nat)
    requires Run(pipeFd, ss, es) && n <= |es|
    requires t in ss[n].removers && (ss[n].removers[t].phase.Marking? || ss[n].removers[t].phase.Waiting?)
    ensures ss[n].removers[t].phase.Waiting? ==> ss[n].pending
    ensures ss[n].pc.InSelect? ==> ss[n].aio.pipe > 0 && Enabled(ss[n], Select({ss[n].aio.pipeFd}, {}))
    ensures exists e ::
      Enabled(ss[n], e) && (PollStep(e) || (e.RemovePend? && ss[n].pc.Top?))
  {
    RunInv(pipeFd, ss, es, n);
    var p := ss[n];
    assert RemoverOk(p, p.removers[t]);
    assert p.pc.InSelect? ==> p.aio.pipeFd in p.pc.rs + p.pc.ws;
    var e := match p.pc
      case Top => if MutexFree(p) then TestPending else
          (var u :| u in p.removers && p.removers[u].phase.Marking?; RemovePend(u))
      case Snap => Snapshot
      case InSelect(_, _, _) => Select({p.aio.pipeFd}, {})
      case Lists(_, _) => CheckNext
      case Checked(_, _, _, _) => Call
      case Calling(_, _, _, _) => Return;
    assert Enabled(p, e);
  }

  /** A pass over the test of `pending_change_` signals every waiting remover, so that none waits. */
  lemma PassReleasesAll(pipeFd: nat, ss: seq<Poll>, es: seq<Event>, n: nat, t: nat)
    requires Run(pipeFd, ss, es) && n < |es| && es[n].TestPending? && t in ss[n].removers
    ensures t in ss[n + 1].removers
    ensures ss[n + 1].removers[t].phase == if ss[n].removers[t].phase.Waiting? then Signalled else ss[n].removers[t].phase
    ensures ss[n + 1].removers[t].phase.Signalled? || ss[n + 1].removers[t].phase.Unsignalled?
  {
    RunInv(pipeFd, ss, es, n);
    var p := ss[n];
    assert Enabled(p, es[n]) && ss[n + 1] == Step(p, es[n]);
    hide Run, AioInv;
    assert RemoverOk(p, p.removers[t]);
  }

  /** Between the null test and the call (states i to n), event i was the return of a removal of fd,
      and fd was not added afterwards. */
  ghost predicate TornAt(ss: seq<Poll>, es: seq<Event>, i: nat, n: nat, fd: nat) {
    && i < n < |ss| == |es| + 1
    && es[i].RemoveReturn? && es[i].t in ss[i].removers && ss[i].removers[es[i].t].fd == fd
    && (forall k | i <= k <= n :: ss[k].pc == ss[n].pc)
    && forall k | i < k < n && es[k].Add? :: es[k].fd != fd
  }

  lemma {:induction false} FindTear(pipeFd: nat, ss: seq<Poll>, es: seq<Event>, n: nat) returns (i: nat)
    requires Run(pipeFd, ss, es) && n <= |es| && ss[n].pc.Checked? && ss[n].pc.fd !in ss[n].callbacks
    ensures TornAt(ss, es, i, n, ss[n].pc.fd)
  {
    hide Unwatch, Watch, Ascending;
    var fd := ss[n].pc.fd;
    var p, e := ss[n - 1], es[n - 1];
    assert Enabled(p, e) && ss[n] == Step(p, e);
    assert p.pc == ss[n].pc;
    if fd !in p.callbacks {
      i := FindTear(pipeFd, ss, es, n - 1);
    } else {
      i := n - 1;
    }
  }

  lemma {:induction false} StaysOut(pipeFd: nat, ss: seq<Poll>, es: seq<Event>, i: nat, j: nat, fd: nat)
    requires Run(pipeFd, ss, es) && i <= j <= |es| && fd !in ss[i].callbacks
    requires forall k | i <= k < j && es[k].Add? :: es[k].fd != fd
    ensures fd !in ss[j].callbacks
  {
    hide Step, Enabled;
    if i < j {
      StaysOut(pipeFd, ss, es, i, j - 1, fd);
      assert Enabled(ss[j - 1], es[j - 1]) && ss[j] == Step(ss[j - 1], es[j - 1]);
      ClearedStep(ss[j - 1], es[j - 1], fd);
    }
  }

  /** The unlocked test of `callbacks_[fd]` holds until the call that it guards, unless a removal of fd
      returned in between; and such a removal was not signalled. */
  lemma CallbackIsThereIff(pipeFd: nat, ss: seq<Poll>, es: seq<Event>, n: nat)
    requires Run(pipeFd, ss, es) && n < |es| && es[n].Call?
    ensures ss[n].pc.fd !in ss[n].callbacks <==> exists i: nat :: TornAt(ss, es, i, n, ss[n].pc.fd)
    ensures forall i: nat | TornAt(ss, es, i, n, ss[n].pc.fd) :: ss[i].removers[es[i].t].phase.Unsignalled?
  {
    hide Unwatch, Watch, Ascending;
    assert Enabled(ss[n], es[n]);
    var fd := ss[n].pc.fd;
    if fd !in ss[n].callbacks {
      var i := FindTear(pipeFd, ss, es, n);
    }
    forall i: nat | TornAt(ss, es, i, n, fd)
      ensures fd !in ss[n].callbacks && ss[i].removers[es[i].t].phase.Unsignalled?
    {
      assert Enabled(ss[i], es[i]) && ss[i + 1] == Step(ss[i], es[i]);
      StaysOut(pipeFd, ss, es, i + 1, n, fd);
      if ss[i].removers[es[i].t].phase.Signalled? {
        SignalledReturnsSafely(pipeFd, ss, es, i);
      }
    }
  }

  /** Nothing watched is missed: every watched descriptor has a callback and is within the range that
      `select` looks at. */
  lemma NothingMissed(pipeFd: nat, ss: seq<Poll>, es: seq<Event>, n: nat, fd: nat)
    requires Run(pipeFd, ss, es) && n <= |es| && fd in Watched(ss[n].aio)
    ensures fd <= ss[n].aio.highfds && ss[n].aio.highfds in Watched(ss[n].aio)
    ensures fd != ss[n].aio.pipeFd ==> fd in ss[n].callbacks
  {
    RunInv(pipeFd, ss, es, n);
  }

  /** The code does not exclude the bad case: in this run a wait returns without a signal, and
      `block_remove_fd` finishes while the poll thread stands at the very call it should prevent. */
  lemma SpuriousWakeBreaksGrace()
    ensures exists ss: seq<Poll>, es: seq<Event> :: Run(0, ss, es) && BreaksGrace(ss, es, 1)
  {
    var es := [Add(1, RdOnly, 7), TestPending, Snapshot, Select({0, 1}, {}), CheckNext, RemoveBegin(0, 1), RemovePend(0),
               Spurious(0), RemoveReturn(0)];
    var ss := seq(10, i requires 0 <= i < 10 => Doomed(i));
    forall i | 0 <= i < |es| ensures Enabled(ss[i], es[i]) && ss[i + 1] == Step(ss[i], es[i]) {
      if i < 3 { DoomedStart(i); } else if i < 7 { DoomedMiddle(i); } else { DoomedEnd(i); }
    }
    assert Run(0, ss, es) && BreaksGrace(ss, es, 1);
  }

  /** The last event was the return of a removal of fd, and now fd's cleared callback can be called. */
  predicate BreaksGrace(ss: seq<Poll>, es: seq<Event>, fd: nat) {
    && |ss| == |es| + 1 && es != []
    && var p, e, p1 := ss[|es| - 1], es[|es| - 1], ss[|es|];
    && e.RemoveReturn? && e.t in p.removers && p.removers[e.t].fd == fd
    && Enabled(p1, Call) && p1.pc.fd == fd && fd !in p1.callbacks
  }

  /** The states of that run. */
  function Doomed(i: nat): Poll
    requires i < 10
  {
    var pc :=
      if i < 2 then Top else if i == 2 then Snap else if i == 3 then InSelect({0, 1}, {}, 1)
      else if i == 4 then Lists([1], []) else Checked(1, false, [], []);
    var removers :=
      if i < 6 || i == 9 then map[] else if i == 6 then map[0 := Remover(1, Marking)]
      else if i == 7 then map[0 := Remover(1, Waiting)] else map[0 := Remover(1, Unsignalled)];
    var aio :=
      if i == 0 then NewAio(0) else if i < 4 then Aio({0, 1}, {}, 1, 0, 1) else if i < 6 then Aio({0, 1}, {}, 1, 0, 0)
      else Aio({0}, {}, 0, 0, 1);
    Poll(aio, if i == 0 || i == 9 then map[] else map[1 := 7], i >= 7, removers, pc, {})
  }

  lemma DoomedStart(i: nat)
    requires i < 3
    ensures var e := if i == 0 then Add(1, RdOnly, 7) else if i == 1 then TestPending else Snapshot;
      Enabled(Doomed(i), e) && Doomed(i + 1) == Step(Doomed(i), e)
  {
  }

  lemma DoomedMiddle(i: nat)
    requires 3 <= i < 7
    ensures var e := if i == 3 then Select({0, 1}, {}) else if i == 4 then CheckNext
                     else if i == 5 then RemoveBegin(0, 1) else RemovePend(0);
      Enabled(Doomed(i), e) && Doomed(i + 1) == Step(Doomed(i), e)
  {
    if i == 3 {
      assert {0, 1} - {0} == {1};
      assert Ascending({1}, 1) == [] && Ascending({1}, 2) == [1];
    }
    if i == 4 {
      var one: seq<nat> := [1];
      assert one[1..] == [];
    }
    if i == 5 {
      var none: set<nat> := {};
      assert none - {1} == none && {0, 1} - {1} == {0} && {0} + none == {0};
      assert HighBelow({0}, 0, 0) == 0 && HighBelow({0}, 1, 0) == 0;
    }
  }

  lemma DoomedEnd(i: nat)
    requires 7 <= i < 9
    ensures var e := if i == 7 then Spurious(0) else RemoveReturn(0);
      Enabled(Doomed(i), e) && Doomed(i + 1) == Step(Doomed(i), e)
  {
  }

  // ---- In place ----

  class PollManager {
    var callbacks: map<nat, nat>
    var pending: bool
    const aio: SelectAIO

    constructor (pipeFd: nat)
      ensures fresh(aio) && aio.State() == NewAio(pipeFd) && callbacks == map[] && !pending
    {
      callbacks, pending := map[], false;
      var a := new SelectAIO(pipeFd);
      aio := a;
    }

    /** The part of a state that the two objects hold. */
    ghost predicate Shows(p: Poll)
      reads this, aio
    {
      aio.State() == p.aio && callbacks == p.callbacks && pending == p.pending
    }

    method AddCallback(ghost p: Poll, fd: nat, flag: PollFlag, ch: nat)
      requires Shows(p) && Enabled(p, Add(fd, flag, ch))
      modifies this, aio
      ensures Shows(Step(p, Add(fd, flag, ch)))
    {
      aio.WatchFd(fd, flag);
      callbacks := callbacks[fd := ch];
    }

    method DelCallback(ghost p: Poll, fd: nat, flag: PollFlag)
      requires Shows(p) && Enabled(p, Del(flag)) && fd == p.pc.fd
      modifies this, aio
      ensures Shows(Step(p, Del(flag)))
    {
      var gone := aio.UnwatchFd(fd, flag);
      if gone {
        callbacks := callbacks - {fd};
      }
    }

    /** The top of `wait_loop`; whoever waits is signalled iff the result says so. */
    method TopOfLoop(ghost p: Poll) returns (broadcast: bool)
      requires Shows(p) && Enabled(p, TestPending)
      modifies this
      ensures Shows(Step(p, TestPending)) && broadcast == old(pending) && !pending
    {
      broadcast := pending;
      if pending {
        pending := false;
      }
    }

    method HasCallback(fd: nat, flag: PollFlag, ch: nat) returns (b: bool)
      ensures b <==> fd in callbacks && callbacks[fd] == ch
                     && (flag.WrOnly? || fd in aio.rfds) && (flag.RdOnly? || fd in aio.wfds)
    {
      if fd !in callbacks || callbacks[fd] != ch {
        return false;
      }
      b := aio.IsWatched(fd, flag);
    }

    /** `block_remove_fd` up to its wait. */
    method BlockRemoveBegin(ghost p: Poll, t: nat, fd: nat)
      requires Shows(p) && Enabled(p, RemoveBegin(t, fd))
      modifies this, aio
      ensures var p1 := Step(p, RemoveBegin(t, fd)); Shows(Step(p1, RemovePend(t)))
    {
      var _ := aio.UnwatchFd(fd, RdWr);
      pending := true;
    }

    /** `block_remove_fd` after its wait. */
    method BlockRemoveEnd(ghost p: Poll, t: nat, fd: nat)
      requires Shows(p) && Enabled(p, RemoveReturn(t)) && p.removers[t].fd == fd
      modifies this, aio
      ensures Shows(Step(p, RemoveReturn(t)))
    {
      callbacks := callbacks - {fd};
    }
  }
}
