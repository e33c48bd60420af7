/** Can `write_cb` find its connection dead? It asserts that it cannot (rpc/connection.cc:168-174). The
    sending end of a connection together with the poll thread and the removal of its descriptor
    (rpc/pollmgr.cc:57-126), as far as write callbacks on that descriptor go. */
module WriteRace {
  import opened RpcTypes
  import opened Codec
  import opened Connection
  import opened Framing

  /** The poll thread: at the top of its loop, in `select` (on a snapshot that has the descriptor for
      writing, or not), with the descriptor in its list of writable ones, or past the null test. */
  datatype Poller = Idle | Selecting(watched: bool) | Listed | Due

  /** `block_remove_fd` for the descriptor: not called for, owed by a thread that has just set `dead_`,
      waiting, signalled, or returned. */
  datatype Removal = NotYet | Owed | Waiting | Signalled | Done

  /** `watched` says that the descriptor is watched for writing, `present` that its callback is set. */
  datatype Race = Race(l: Link, watched: bool, present: bool, poller: Poller, removal: Removal)

  datatype Op =
    | Do(e: Framing.Event)
    | RemoveBegin
    | RemoveReturn
    | Snapshot
    | SelectReturns(writable: bool)
    | Test
    | WriteCallback(io: WriteOut)

  const BEGIN := Race(START, false, true, Idle, NotYet)

  /** A `send` whose first write fails. */
  predicate FailingSend(l: Link, e: Framing.Event)
    requires Framing.Enabled(l, e)
  {
    (e.Send? || e.Retry?) && !l.tx.dead && Framing.Step(l, e).tx.dead
  }

  /** A `send` that leaves bytes to write and calls `add_callback`. */
  predicate WaitingSend(l: Link, e: Framing.Event)
    requires Framing.Enabled(l, e)
  {
    && (e.Send? || e.Retry?) && !l.tx.dead && l.tx.w.buf.None?
    && Framing.Step(l, e).tx.w.buf.Some? && !Framing.Step(l, e).tx.dead
  }

  /** `read_cb` runs in the poll thread, between `select` and the write callbacks; a removal returns only
      once it was signalled. */
  predicate Enabled(r: Race, op: Op) {
    match op
    case Do(e) => Framing.Enabled(r.l, e) && !e.Writable? && (e.TxReadFails? ==> r.poller.Idle? || r.poller.Listed?)
    case RemoveBegin => r.removal.Owed?
    case RemoveReturn => r.removal.Signalled?
    case Snapshot => r.poller.Idle?
    case SelectReturns(writable) => r.poller.Selecting? && (writable ==> r.poller.watched)
    case Test => r.poller.Listed?
    case WriteCallback(io) => r.poller.Due? && !r.l.tx.dead && Framing.Enabled(r.l, Writable(io))
  }

  function Step(r: Race, op: Op): Race
    requires Enabled(r, op)
  {
    match op
    case Do(e) =>
      var r1 := r.(l := Framing.Step(r.l, e));
      if e.Close? || FailingSend(r.l, e) then r1.(removal := Owed)
      else if e.TxReadFails? then r1.(watched := false, present := false)
      else if WaitingSend(r.l, e) then r1.(watched := true, present := true)
      else r1
    case RemoveBegin => r.(watched := false, removal := Waiting)
    case RemoveReturn => r.(present := false, removal := Done)
    case Snapshot =>
      r.(poller := Selecting(r.watched), removal := if r.removal.Waiting? then Signalled else r.removal)
    case SelectReturns(writable) => r.(poller := if writable then Listed else Idle)
    case Test => r.(poller := if r.present then Due else Idle)
    case WriteCallback(io) =>
      var r1 := r.(l := Framing.Step(r.l, Writable(io)), poller := Idle);
      if r.l.tx.w.sz == 0 then r1.(watched := false)
      else if r1.l.tx.dead then r1.(watched := false, present := false)
      else r1
  }

  ghost predicate Run(rs: seq<Race>, ops: seq<Op>) {
    && |rs| == |ops| + 1 && rs[0] == BEGIN
    && forall i | 0 <= i < |ops| :: Enabled(rs[i], ops[i]) && rs[i + 1] == Step(rs[i], ops[i])
  }

  /** The poll thread is about to enter `write_cb`, and its assertion will fail. */
  predicate AssertionFails(r: Race) {
    r.poller.Due? && r.l.tx.dead
  }

  /** The death of the connection at another thread's hands: `closeconn`, or a failed `send`. */
  predicate KilledBy(r: Race, op: Op)
    requires Enabled(r, op)
  {
    op.Do? && (op.e.Close? || FailingSend(r.l, op.e))
  }

  ghost predicate Killed(rs: seq<Race>, ops: seq<Op>, i: nat) {
    i < |ops| && i < |rs| && Enabled(rs[i], ops[i]) && KilledBy(rs[i], ops[i])
  }

  /** A connection that died in the poll thread itself has no callback any more. */
  ghost predicate Inv(r: Race) {
    && (r.removal.NotYet? && r.l.tx.dead ==> !r.present && !r.poller.Due?)
    && (!r.removal.NotYet? ==> r.l.tx.dead)
    && (r.removal.Waiting? || r.removal.Signalled? || r.removal.Done? ==> !r.watched)
    && (r.removal.Signalled? || r.removal.Done? ==>
          r.poller.Idle? || (r.poller.Selecting? && !r.poller.watched))
  }

  lemma StepKeepsInv(r: Race, op: Op)
    requires Inv(r) && Enabled(r, op)
    ensures Inv(Step(r, op))
    ensures r.l.tx.dead ==> Step(r, op).l.tx.dead
    ensures Step(r, op).removal.NotYet? <==> r.removal.NotYet? && !KilledBy(r, op)
  {
    hide Frame, ReadCb, ReadPdu, ReadOutOk, WritePdu, Broadcast, WakeOwner;
  }

  lemma {:induction false} RunInv(rs: seq<Race>, ops: seq<Op>, n: nat)
    requires Run(rs, ops) && n <= |ops|
    ensures Inv(rs[n])
    ensures rs[n].removal.NotYet? <==> forall i: nat | i < n :: !Killed(rs, ops, i)
  {
    hide Step, Enabled, KilledBy, Inv;
    if n == 0 {
      BeginInv();
    } else {
      RunInv(rs, ops, n - 1);
      assert Enabled(rs[n - 1], ops[n - 1]) && rs[n] == Step(rs[n - 1], ops[n - 1]);
      StepKeepsInv(rs[n - 1], ops[n - 1]);
      assert Killed(rs, ops, n - 1) <==> KilledBy(rs[n - 1], ops[n - 1]);
    }
  }

  lemma BeginInv()
    ensures Inv(BEGIN) && BEGIN.removal.NotYet?
  {
  }

  /** Exactly when the assertion fails: the poll thread enters `write_cb` and, earlier in the run,
      `closeconn` or a failed `send` killed the connection. */
  lemma AssertionFailsIff(rs: seq<Race>, ops: seq<Op>, n: nat)
    requires Run(rs, ops) && n <= |ops| && rs[n].poller.Due?
    ensures AssertionFails(rs[n]) <==> exists i: nat :: i < n && Killed(rs, ops, i)
  {
    hide Run, Killed;
    RunInv(rs, ops, n);
  }

  /** The window closes: once the removal is signalled, as it is before it returns, the poll thread
      does not come to `write_cb` again. */
  lemma NoWriteCallbackAfterRemoval(rs: seq<Race>, ops: seq<Op>, n: nat)
    requires Run(rs, ops) && n <= |ops| && (rs[n].removal.Signalled? || rs[n].removal.Done?)
    ensures !rs[n].poller.Due? && !rs[n].poller.Listed?
  {
    hide Run, Killed;
    RunInv(rs, ops, n);
  }

  /** A run into the failing assertion: a send waits, the poll thread passes its null test, and
      `closeconn` comes before it enters the callback. */
  lemma CloseFailsAssertion(b: Bytes)
    requires IsPdu(b)
    ensures exists rs: seq<Race>, ops: seq<Op> :: Run(rs, ops) && AssertionFails(rs[|ops|])
  {
    hide Frame, ReadCb, ReadPdu;
    var e := Send(0, b, WouldBlock);
    var r1 := Step(BEGIN, Do(e));
    assert r1.watched && r1.present && !r1.l.tx.dead;
    var r2 := Step(r1, Snapshot);
    var r3 := Step(r2, SelectReturns(true));
    var r4 := Step(r3, Test);
    var r5 := Step(r4, Do(Close));
    var rs, ops := [BEGIN, r1, r2, r3, r4, r5], [Do(e), Snapshot, SelectReturns(true), Test, Do(Close)];
    assert Run(rs, ops) && AssertionFails(rs[|ops|]);
  }
}
