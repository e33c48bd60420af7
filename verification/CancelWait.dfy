/** The threads inside `cancel` (rpc/rpc.cc:162-186, 272-284): the client's fields together with the
    condition variable `destroy_wait_c_`, on which any number of threads may wait for the calls to
    drain, and which the end of a call signals once. */
module CancelWait {
  import opened RpcTypes
  import opened RpcClient
  import opened XidWindow
  import opened RpcSystem
  import opened AtMostOnce

  /** `cancellers` are the threads inside `pthread_cond_wait(&destroy_wait_c_)`, true once awakened. */
  datatype Drain = Drain(cl: Client, cancellers: map<nat, bool>)

  datatype Op =
    | Begin(proc: nat, args: Bytes)
    | GotReply(rep: Rep)
    | Bound(srv: nat)
    | End(x: nat, woken: set<nat>)
    | Enter(t: nat)
    | Resume(t: nat)
    | Spurious(t: nat)

  predicate Asleep(d: Drain, t: nat) {
    t in d.cancellers && !d.cancellers[t]
  }

  /** `pthread_cond_signal` wakes at least one of the sleepers, if there is one. */
  ghost predicate Signal(d: Drain, woken: set<nat>) {
    && (forall t | t in woken :: Asleep(d, t))
    && (woken == {} ==> forall t: nat :: !Asleep(d, t))
  }

  function Wake(cs: map<nat, bool>, woken: set<nat>): map<nat, bool> {
    map t | t in cs :: cs[t] || t in woken
  }

  ghost predicate Enabled(d: Drain, e: Op) {
    |d.cl.repWindow| > 0 &&
    match e
    case Begin(proc, args) => StartCall(d.cl, proc, args).Started?
    case GotReply(_) => true
    case Bound(_) => true
    case End(x, woken) => x in d.cl.calls && if d.cl.destroyWait then Signal(d, woken) else woken == {}
    case Enter(t) => t !in d.cancellers
    case Resume(t) => t in d.cancellers && d.cancellers[t]
    case Spurious(t) => t in d.cancellers
  }

  function Step(d: Drain, e: Op): Drain
    requires Enabled(d, e)
  {
    match e
    case Begin(proc, args) => d.(cl := StartCall(d.cl, proc, args).client)
    case GotReply(rep) => d.(cl := GotPdu(d.cl, rep))
    case Bound(srv) => d.(cl := BindDone(d.cl, srv))
    case End(x, woken) => Drain(FinishCall(d.cl, x).0, Wake(d.cancellers, woken))
    case Enter(t) =>
      Drain(Cancel(d.cl), if d.cl.calls != map[] then d.cancellers[t := false] else d.cancellers)
    case Resume(t) =>
      if d.cl.calls != map[] then Drain(d.cl.(destroyWait := true), d.cancellers[t := false])
      else d.(cancellers := d.cancellers - {t})
    case Spurious(t) => d.(cancellers := d.cancellers[t := true])
  }

  ghost predicate Run(ds: seq<Drain>, es: seq<Op>) {
    && |ds| == |es| + 1
    && ds[0] == Drain(NewClient(ds[0].cl.cltNonce), map[])
    && forall i | 0 <= i < |es| :: Enabled(ds[i], es[i]) && ds[i + 1] == Step(ds[i], es[i])
  }

  /** A thread is in `cancel` only after calls were barred, and then all calls have failed. */
  ghost predicate Inv(d: Drain) {
    && |d.cl.repWindow| > 0
    && (d.cancellers != map[] ==> d.cl.destroyWait)
    && (d.cl.destroyWait ==> Draining(d.cl))
  }

  lemma StepKeepsInv(d: Drain, e: Op)
    requires Inv(d) && Enabled(d, e)
    ensures Inv(Step(d, e))
  {
    if e.End? || e.Spurious? || e.Resume? {
      assert d.cancellers == map[] ==> Step(d, e).cancellers == map[];
    }
  }

  lemma {:induction false} RunInv(ds: seq<Drain>, es: seq<Op>, n: nat)
    requires Run(ds, es) && n <= |es|
    ensures Inv(ds[n])
  {
    hide Step, Enabled;
    if n > 0 {
      RunInv(ds, es, n - 1);
      StepKeepsInv(ds[n - 1], es[n - 1]);
      assert ds[n] == Step(ds[n - 1], es[n - 1]);
    }
  }

  // ---- Who is left asleep ----

  /** Thread t sleeps although nothing is left to wait for. */
  ghost predicate Stuck(d: Drain, t: nat) {
    d.cl.calls == map[] && Asleep(d, t)
  }

  /** Event i was the end of the last outstanding call, and its signal passed over the sleeping t. */
  ghost predicate PassedOver(ds: seq<Drain>, es: seq<Op>, i: nat, t: nat) {
    && i < |es| == |ds| - 1
    && es[i].End? && ds[i].cl.calls.Keys == {es[i].x}
    && Asleep(ds[i], t) && t !in es[i].woken
  }

  lemma StuckBefore(d: Drain, e: Op, t: nat)
    requires Inv(d) && Enabled(d, e) && Stuck(Step(d, e), t)
    ensures e != Spurious(t)
    ensures Stuck(d, t) || (e.End? && d.cl.calls.Keys == {e.x} && Asleep(d, t) && t !in e.woken)
  {
    if e.End? {
      assert d.cl.calls.Keys - {e.x} == Step(d, e).cl.calls.Keys == {};
    } else if e.Enter? {
      assert Step(d, e).cl.calls.Keys == d.cl.calls.Keys;
    } else if e.GotReply? {
      assert Step(d, e).cl.calls.Keys == d.cl.calls.Keys;
    }
  }

  /** Once stuck, no step but a spurious wakeup of its own gets a thread out: no call can begin, so
      none can end and signal. */
  lemma StuckStays(d: Drain, e: Op, t: nat)
    requires Inv(d) && Enabled(d, e) && Stuck(d, t) && e != Spurious(t)
    ensures Stuck(Step(d, e), t)
  {
    assert d.cancellers != map[];
    if e.Enter? || e.GotReply? {
      assert Step(d, e).cl.calls.Keys == d.cl.calls.Keys;
    }
  }

  lemma PassedOverIsStuck(d: Drain, x: nat, woken: set<nat>, t: nat)
    requires Enabled(d, End(x, woken)) && d.cl.calls.Keys == {x} && Asleep(d, t) && t !in woken
    ensures Stuck(Step(d, End(x, woken)), t)
  {
    assert Step(d, End(x, woken)).cl.calls.Keys == {};
  }

  lemma {:induction false} FindPassedOver(ds: seq<Drain>, es: seq<Op>, n: nat, t: nat) returns (i: nat)
    requires Run(ds, es) && n <= |es| && Stuck(ds[n], t)
    ensures i < n && PassedOver(ds, es, i, t) && forall k | i < k < n :: es[k] != Spurious(t)
  {
    hide Step, Enabled, Inv;
    RunInv(ds, es, n - 1);
    assert Enabled(ds[n - 1], es[n - 1]) && ds[n] == Step(ds[n - 1], es[n - 1]);
    StuckBefore(ds[n - 1], es[n - 1], t);
    if Stuck(ds[n - 1], t) {
      i := FindPassedOver(ds, es, n - 1, t);
    } else {
      i := n - 1;
    }
  }

  lemma {:induction false} StaysPassedOver(ds: seq<Drain>, es: seq<Op>, i: nat, n: nat, t: nat)
    requires Run(ds, es) && i < n <= |es| && PassedOver(ds, es, i, t)
    requires forall k | i < k < n :: es[k] != Spurious(t)
    ensures Stuck(ds[n], t)
  {
    hide Step, Enabled, Inv, Stuck;
    RunInv(ds, es, n - 1);
    assert Enabled(ds[n - 1], es[n - 1]) && ds[n] == Step(ds[n - 1], es[n - 1]);
    if n == i + 1 {
      PassedOverIsStuck(ds[i], es[i].x, es[i].woken, t);
    } else {
      StaysPassedOver(ds, es, i, n - 1, t);
      StuckStays(ds[n - 1], es[n - 1], t);
    }
  }

  /** Exactly when a thread in `cancel` is left asleep at an empty table, in any run: the signal of the
      last outstanding call passed over it, and it had no spurious wakeup since. */
  lemma StuckIff(ds: seq<Drain>, es: seq<Op>, n: nat, t: nat)
    requires Run(ds, es) && n <= |es|
    ensures Stuck(ds[n], t) <==>
      exists i: nat :: i < n && PassedOver(ds, es, i, t) && forall k | i < k < n :: es[k] != Spurious(t)
  {
    hide Step, Enabled, Stuck, PassedOver;
    if Stuck(ds[n], t) {
      var i := FindPassedOver(ds, es, n, t);
    }
    if i: nat :| i < n && PassedOver(ds, es, i, t) && forall k | i < k < n :: es[k] != Spurious(t) {
      StaysPassedOver(ds, es, i, n, t);
    }
  }

  /** With at most one thread in `cancel` whenever a call ends, the signal finds it: nobody is stuck. */
  lemma SoleCancellerNotStuck(ds: seq<Drain>, es: seq<Op>, n: nat, t: nat)
    requires Run(ds, es) && n <= |es|
    requires forall i, u, v | 0 <= i < n && es[i].End? && u in ds[i].cancellers && v in ds[i].cancellers :: u == v
    ensures !Stuck(ds[n], t)
  {
    hide Step, Inv, Stuck, Enabled;
    if Stuck(ds[n], t) {
      var i := FindPassedOver(ds, es, n, t);
      RunInv(ds, es, i);
      SoleSleeperIsWoken(ds[i], es[i].x, es[i].woken, t);
    }
  }

  lemma SoleSleeperIsWoken(d: Drain, x: nat, woken: set<nat>, t: nat)
    requires Inv(d) && Enabled(d, End(x, woken)) && Asleep(d, t)
    requires forall u, v | u in d.cancellers && v in d.cancellers :: u == v
    ensures t in woken
  {
    assert d.cancellers != map[];
    assert woken != {};
    var u :| u in woken;
    assert u == t;
  }

  /** A thread in `cancel` that is not stuck can go on: it is awake, or a call is outstanding, and any
      such can end, with the code `cancel_failure`. */
  lemma CancelCanGoOn(ds: seq<Drain>, es: seq<Op>, n: nat, t: nat)
    requires Run(ds, es) && n <= |es| && t in ds[n].cancellers && !Stuck(ds[n], t)
    ensures Enabled(ds[n], Resume(t)) || exists x, woken ::
      Enabled(ds[n], End(x, woken)) && FinishCall(ds[n].cl, x).1.ret == CANCEL_FAILURE && t in woken
  {
    RunInv(ds, es, n);
    var d := ds[n];
    if Asleep(d, t) {
      var x :| x in d.cl.calls;
      assert d.cancellers != map[];
      assert Enabled(d, End(x, {t}));
    }
  }

  /** A run in which two threads are in `cancel`, and the end of the only call wakes one of them. */
  lemma TwoCancellersStrand()
    ensures exists ds: seq<Drain>, es: seq<Op> :: Run(ds, es) && Stuck(ds[|es|], 1)
  {
    hide Step, Enabled, Stuck;
    var es := [Begin(BIND, []), Enter(0), Enter(1), End(1, {0})];
    TwoEnter();
    OneWoken();
    var ds := [TwoIn(0), TwoIn(1), TwoIn(2), TwoIn(3), TwoIn(4)];
    assert Run(ds, es) && Stuck(ds[|es|], 1);
  }

  /** The states of that run. */
  function TwoIn(i: nat): Drain {
    var ca := Caller(Req(1, BIND, 1, 0, 0, []), i >= 2, if i >= 2 then CANCEL_FAILURE else 0, []);
    var calls := if i == 0 || i == 4 then map[] else map[1 := ca];
    var cs := if i < 2 then map[] else if i == 2 then map[0 := false] else map[0 := i == 4, 1 := false];
    Drain(Client(1, false, 0, if i == 0 then 1 else 2, calls, if i == 4 then [1] else [0], i >= 2), cs)
  }

  lemma TwoEnter()
    ensures TwoIn(0) == Drain(NewClient(1), map[])
    ensures Enabled(TwoIn(0), Begin(BIND, [])) && TwoIn(1) == Step(TwoIn(0), Begin(BIND, []))
    ensures Enabled(TwoIn(1), Enter(0)) && TwoIn(2) == Step(TwoIn(1), Enter(0))
    ensures Enabled(TwoIn(2), Enter(1)) && TwoIn(3) == Step(TwoIn(2), Enter(1))
  {
    assert 1 in TwoIn(1).cl.calls && 1 in TwoIn(2).cl.calls;
    assert Cancel(TwoIn(1).cl).calls == TwoIn(2).cl.calls;
    assert Cancel(TwoIn(2).cl).calls == TwoIn(2).cl.calls;
  }

  lemma OneWoken()
    ensures Enabled(TwoIn(3), End(1, {0})) && TwoIn(4) == Step(TwoIn(3), End(1, {0}))
    ensures Stuck(TwoIn(4), 1)
  {
    assert Insert([0], 1) == [0] + Insert([0][1..], 1) == [0, 1];
    assert [0, 1][1..] == [1];
    assert Compress([0, 1]) == Compress([1]) == [1];
    assert TwoIn(3).cl.calls - {1} == map[];
    assert Wake(TwoIn(3).cancellers, {0}) == TwoIn(4).cancellers;
  }

  // ---- The client of the RPC system ----

  /** Every event of the RPC system that changes its client is a step of this machine, whoever is in
      `cancel`; so what is proved here holds for its clients. */
  lemma SystemStepIsClientStep(s: Sys, e: Event, cs: map<nat, bool>, t: nat)
    requires RpcSystem.Enabled(s, e) && t !in cs
    ensures RpcSystem.Step(s, e).client == s.client || exists op ::
      Enabled(Drain(s.client, cs), op) && Step(Drain(s.client, cs), op).cl == RpcSystem.Step(s, e).client
  {
    hide Dispatch, StoreAndSend, SetPhase, BindResult, HandlerResult, GotPdu, FinishCall, StartCall;
    var d := Drain(s.client, cs);
    var asleep := set u | u in cs && !cs[u];
    assert forall u | Asleep(d, u) :: u in asleep;
    assert Signal(d, asleep);
    var op := match e
      case Start(proc, args) => Begin(proc, args)
      case Deliver(msg) => GotReply(msg.rep)
      case CancelAll => Enter(t)
      case Finish(xid) => End(xid, if s.client.destroyWait then asleep else {})
      case EndBind(xid) => Bound(BindResult(s.outcomes[xid].body).value)
      case _ => GotReply(Rep(0, 0, []));
    if RpcSystem.Step(s, e).client != s.client {
      assert Enabled(d, op);
    }
  }
}
