/** What every run of the RPC system keeps, over all of its states. */
module AtMostOnce {
  import opened RpcTypes
  import opened RpcClient
  import opened ReplyWindow
  import opened RpcSystem
  import opened XidWindow

  /** History only grows, and every instance evolves. */
  ghost predicate Grows(s: Sys, s': Sys) {
    && (forall x | x in s.headers :: x in s'.headers && s'.headers[x] == s.headers[x])
    && s.reported <= s'.reported
    && (forall x | x in s.accepted :: x in s'.accepted && s'.accepted[x] == s.accepted[x])
    && (forall x | x in s.outcomes :: x in s'.outcomes && s'.outcomes[x] == s.outcomes[x])
    && (forall srv | srv in s.servers :: srv in s'.servers && Evolves(s.servers[srv], s'.servers[srv]))
  }

  lemma GrowsTransitive(a: Sys, b: Sys, c: Sys)
    requires Grows(a, b) && Grows(b, c)
    ensures Grows(a, c)
  {
    hide Evolves;
    forall srv | srv in a.servers ensures Evolves(a.servers[srv], c.servers[srv]) {
      EvolvesTransitive(a.servers[srv], b.servers[srv], c.servers[srv]);
    }
  }

  predicate ServerEvent(e: Event) {
    e.Receive? || e.Return? || e.Reply?
  }

  /** A step moves at most the instance it names. */
  lemma OneServerMoves(s: Sys, e: Event)
    requires Enabled(s, e)
    ensures ServerEvent(e) ==> e.srv in s.servers
    ensures forall srv | srv in s.servers && (ServerEvent(e) || e.Boot? ==> srv != e.srv) ::
      srv in Step(s, e).servers && Step(s, e).servers[srv] == s.servers[srv]
    ensures ServerEvent(e) ==> e.srv in Step(s, e).servers
  {
    hide Dispatch, StoreAndSend, SetPhase, GotPdu, BindResult, StartCall, FinishCall, Cancel, HandlerResult;
  }

  lemma ServerEvolves(s: Sys, e: Event)
    requires Inv(s) && Enabled(s, e) && ServerEvent(e)
    ensures Evolves(s.servers[e.srv], Step(s, e).servers[e.srv])
  {
    hide SrvInv, MsgOk, Dispatch, Represents, Evolves;
    var sv := s.servers[e.srv];
    assert SrvInv(e.srv, sv, s.headers, s.reported);
    if e.Receive? {
      DispatchKeeps(s.procs, e.srv, sv, e.req, s.headers, s.reported, s.client.cltNonce);
    } else if e.Return? {
      ReturnKeeps(e.srv, sv, e.exec, e.ret, e.body, s.headers, s.reported);
    } else {
      ReplyKeeps(e.srv, sv, e.exec, s.headers, s.reported);
    }
  }

  /** A call's slots in the history are written once. */
  lemma WrittenOnce(s: Sys, e: Event)
    requires Inv(s) && Enabled(s, e)
    ensures e.Start? ==> s.client.nextXid !in s.headers
    ensures e.Finish? ==> e.xid !in s.outcomes
    ensures e.Deliver? && Awaits(s.client, e.msg.rep.xid) ==> e.msg.rep.xid !in s.accepted
    ensures e.Boot? ==> e.srv !in s.servers
  {
    hide NetInv, Represents, HeaderOk, Doomed;
  }

  lemma HistoryGrows(s: Sys, e: Event)
    requires Inv(s) && Enabled(s, e)
    ensures var s' := Step(s, e);
      && (forall x | x in s.headers :: x in s'.headers && s'.headers[x] == s.headers[x])
      && s.reported <= s'.reported
      && (forall x | x in s.accepted :: x in s'.accepted && s'.accepted[x] == s.accepted[x])
      && (forall x | x in s.outcomes :: x in s'.outcomes && s'.outcomes[x] == s.outcomes[x])
  {
    hide Inv, Dispatch, StoreAndSend, SetPhase, GotPdu, BindResult, HandlerResult, Cancel, BindDone;
    WrittenOnce(s, e);
  }

  lemma StepGrows(s: Sys, e: Event)
    requires Inv(s) && Enabled(s, e)
    ensures Grows(s, Step(s, e))
  {
    hide Inv, Evolves, Step, Enabled;
    HistoryGrows(s, e);
    ServersGrow(s, e);
  }

  lemma ServersGrow(s: Sys, e: Event)
    requires Inv(s) && Enabled(s, e)
    ensures var s' := Step(s, e);
      forall srv | srv in s.servers :: srv in s'.servers && Evolves(s.servers[srv], s'.servers[srv])
  {
    hide Inv, Evolves, Step, Enabled;
    WrittenOnce(s, e);
    OneServerMoves(s, e);
    if ServerEvent(e) {
      ServerEvolves(s, e);
    }
    forall srv | srv in s.servers ensures srv in Step(s, e).servers && Evolves(s.servers[srv], Step(s, e).servers[srv]) {
      EvolvesReflexive(s.servers[srv]);
    }
  }

  lemma {:induction false} RunInv(ss: seq<Sys>, es: seq<Event>, i: nat)
    requires Run(ss, es) && i < |ss|
    ensures Inv(ss[i])
  {
    hide Inv, Step, Enabled, Init;
    if i == 0 {
      InitInv(ss[0]);
    } else {
      RunInv(ss, es, i - 1);
      StepKeepsInv(ss[i - 1], es[i - 1]);
      assert ss[i] == Step(ss[i - 1], es[i - 1]);
    }
  }

  lemma {:induction false} RunGrows(ss: seq<Sys>, es: seq<Event>, i: nat, j: nat)
    requires Run(ss, es) && i <= j < |ss|
    ensures Grows(ss[i], ss[j])
    decreases j
  {
    hide Inv, Step, Enabled, Init;
    if i == j {
      SelfGrows(ss[i]);
    } else {
      RunGrows(ss, es, i, j - 1);
      RunInv(ss, es, j - 1);
      StepGrows(ss[j - 1], es[j - 1]);
      assert ss[j] == Step(ss[j - 1], es[j - 1]);
      GrowsTransitive(ss[i], ss[j - 1], ss[j]);
    }
  }

  lemma SelfGrows(s: Sys)
    ensures Grows(s, s)
  {
  }

  /** Event e makes instance `srv` take the NEW branch of `dispatch` for `xid`. */
  ghost predicate TakesNew(s: Sys, e: Event, srv: nat, xid: nat) {
    && e.Receive? && e.srv == srv && e.req.xid == xid
    && Enabled(s, e)
    && (e.req.srvNonce == 0 || e.req.srvNonce == srv)
    && e.req.proc in s.procs
    && Check(s.servers[srv].window, xid, e.req.xidRep).verdict.New?
  }

  lemma NewWasNotExecuted(s: Sys, e: Event, srv: nat, xid: nat)
    requires Inv(s) && TakesNew(s, e, srv, xid)
    ensures !Executed(s.servers[srv], xid)
    ensures srv in Step(s, e).servers && Executed(Step(s, e).servers[srv], xid)
    ensures xid in s.headers && s.headers[xid] == e.req
  {
    hide Represents, MsgOk, Check, Evolves;
    NewIsFresh(e.req, s.headers, s.client.cltNonce, s.reported, srv, s.servers[srv]);
    var sv' := Step(s, e).servers[srv];
    assert sv'.execs[|s.servers[srv].execs|].req.xid == xid;
  }

  /** At most once: in any run, over any network schedule, one instance takes the NEW branch for
      one xid at most once. */
  lemma AtMostOnceAtAnInstance(ss: seq<Sys>, es: seq<Event>, i: nat, j: nat, srv: nat, xid: nat)
    requires Run(ss, es) && i <= j < |es|
    requires TakesNew(ss[i], es[i], srv, xid) && TakesNew(ss[j], es[j], srv, xid)
    ensures i == j
  {
    hide Inv, Step, Enabled, Check;
    RunInv(ss, es, i);
    RunInv(ss, es, j);
    NewWasNotExecuted(ss[i], es[i], srv, xid);
    NewWasNotExecuted(ss[j], es[j], srv, xid);
    if i < j {
      assert ss[i + 1] == Step(ss[i], es[i]);
      RunGrows(ss, es, i + 1, j);
    }
  }

  /** At most once over all server incarnations, for everything but bind: the header of a call is
      packed once, after a bind, with the nonce of one instance. */
  lemma AtMostOnceAcrossRestarts(ss: seq<Sys>, es: seq<Event>, i: nat, j: nat, srv: nat, srv': nat, xid: nat)
    requires Run(ss, es) && i <= j < |es|
    requires TakesNew(ss[i], es[i], srv, xid) && TakesNew(ss[j], es[j], srv', xid)
    requires es[i].req.proc != BIND
    ensures i == j && srv == srv'
  {
    hide Inv, Step, Enabled, Check;
    RunInv(ss, es, i);
    RunInv(ss, es, j);
    RunGrows(ss, es, i, j);
    NewWasNotExecuted(ss[i], es[i], srv, xid);
    NewWasNotExecuted(ss[j], es[j], srv', xid);
    NonBindIsAddressed(ss[i], xid);
    AtMostOnceAtAnInstance(ss, es, i, j, srv, xid);
  }

  lemma OnlyNewExecutes(s: Sys, e: Event, srv: nat, xid: nat)
    requires Enabled(s, e) && srv in Step(s, e).servers && Executed(Step(s, e).servers[srv], xid)
    requires srv !in s.servers || !Executed(s.servers[srv], xid)
    ensures TakesNew(s, e, srv, xid)
  {
    hide Check;
    var sv' := Step(s, e).servers[srv];
    if srv in s.servers {
      assert forall k | 0 <= k < |s.servers[srv].execs| :: s.servers[srv].execs[k].req.xid != xid;
    }
  }

  /** The execution log is the history of NEW verdicts: whatever has been executed took the NEW
      branch at an earlier event. */
  lemma {:induction false} ExecutedTookNew(ss: seq<Sys>, es: seq<Event>, i: nat, srv: nat, xid: nat) returns (j: nat)
    requires Run(ss, es) && i < |ss| && srv in ss[i].servers && Executed(ss[i].servers[srv], xid)
    ensures j < i && TakesNew(ss[j], es[j], srv, xid)
  {
    hide Enabled, Step, TakesNew, Executed;
    if i == 0 {
      assert false;
    } else {
      assert Enabled(ss[i - 1], es[i - 1]) && ss[i] == Step(ss[i - 1], es[i - 1]);
      if srv in ss[i - 1].servers && Executed(ss[i - 1].servers[srv], xid) {
        j := ExecutedTookNew(ss, es, i - 1, srv, xid);
      } else {
        OnlyNewExecutes(ss[i - 1], es[i - 1], srv, xid);
        j := i - 1;
      }
    }
  }

  lemma NonBindIsAddressed(s: Sys, xid: nat)
    requires Inv(s) && xid in s.headers && s.headers[xid].proc != BIND
    ensures s.headers[xid].srvNonce != 0
  {
    hide Represents, NetInv, CallInv;
  }

  /** A used window stays nonempty and its front never decreases. */
  lemma WindowFrontMonotone(ss: seq<Sys>, es: seq<Event>, i: nat, j: nat, srv: nat)
    requires Run(ss, es) && i <= j < |ss|
    requires srv in ss[i].servers && ss[i].servers[srv].window != []
    ensures srv in ss[j].servers && ss[j].servers[srv].window != []
    ensures ss[i].servers[srv].window[0].xid <= ss[j].servers[srv].window[0].xid
  {
    RunGrows(ss, es, i, j);
  }

  /** No instance ever runs `xid`, in any state of the run. */
  ghost predicate NeverExecutedBy(ss: seq<Sys>, srv: nat, xid: nat) {
    forall j | 0 <= j < |ss| && srv in ss[j].servers :: !Executed(ss[j].servers[srv], xid)
  }

  /** `atmostonce_failure` is truthful: the instance that answered it has not run the request, did
      not run it before, and will not run it later; for anything but bind this covers all instances. */
  lemma FailureIsTruthful(ss: seq<Sys>, es: seq<Event>, i: nat, xid: nat)
    requires Run(ss, es) && i < |ss|
    requires xid in ss[i].outcomes && ss[i].outcomes[xid].ret == ATMOSTONCE_FAILURE
    ensures xid in ss[i].headers && xid in ss[i].accepted
    ensures NeverExecutedBy(ss, ss[i].accepted[xid].from, xid)
    ensures ss[i].headers[xid].proc != BIND ==> forall srv :: NeverExecutedBy(ss, srv, xid)
  {
    hide Inv, Run, Executed, Evolves;
    RunInv(ss, es, i);
    RefusedIsDoomed(ss[i], xid);
    var from := ss[i].accepted[xid].from;
    forall j | 0 <= j < |ss| && from in ss[j].servers ensures !Executed(ss[j].servers[from], xid) {
      DoomedThroughout(ss, es, i, j, from, xid);
    }
    if ss[i].headers[xid].proc != BIND {
      NonBindIsAddressed(ss[i], xid);
      forall srv ensures NeverExecutedBy(ss, srv, xid) {
        forall j | 0 <= j < |ss| && srv in ss[j].servers ensures !Executed(ss[j].servers[srv], xid) {
          if srv != from {
            NotAddressedNotExecuted(ss, es, i, j, srv, xid);
          }
        }
      }
    }
  }

  lemma RefusedIsDoomed(s: Sys, xid: nat)
    requires Inv(s) && xid in s.outcomes && s.outcomes[xid].ret == ATMOSTONCE_FAILURE
    ensures xid in s.headers && xid in s.accepted && s.accepted[xid].from in s.servers
    ensures Doomed(s.servers[s.accepted[xid].from], xid)
    ensures s.headers[xid].srvNonce == 0 || s.headers[xid].srvNonce == s.accepted[xid].from
  {
    hide ClientInv, SrvInv, MsgOk, Doomed;
    assert Explained(s.accepted, xid, s.outcomes[xid].ret, s.outcomes[xid].body);
    assert Addressed(s.accepted[xid], s.headers[xid]);
  }

  lemma DoomedThroughout(ss: seq<Sys>, es: seq<Event>, i: nat, j: nat, srv: nat, xid: nat)
    requires Run(ss, es) && i < |ss| && j < |ss|
    requires srv in ss[i].servers && Doomed(ss[i].servers[srv], xid)
    requires srv in ss[j].servers
    ensures !Executed(ss[j].servers[srv], xid)
  {
    hide Run;
    if i <= j {
      RunGrows(ss, es, i, j);
      DoomedForever(ss[i].servers[srv], ss[j].servers[srv], xid);
    } else {
      RunGrows(ss, es, j, i);
      forall k | 0 <= k < |ss[j].servers[srv].execs| ensures ss[j].servers[srv].execs[k].req.xid != xid {
        assert ss[i].servers[srv].execs[k].req.xid != xid;
      }
    }
  }

  lemma NotAddressedNotExecuted(ss: seq<Sys>, es: seq<Event>, i: nat, j: nat, srv: nat, xid: nat)
    requires Run(ss, es) && i < |ss| && j < |ss|
    requires xid in ss[i].headers && ss[i].headers[xid].srvNonce != 0 && ss[i].headers[xid].srvNonce != srv
    requires srv in ss[j].servers
    ensures !Executed(ss[j].servers[srv], xid)
  {
    hide Run, Represents, MsgOk, Evolves, Remembered, EntryOf;
    RunInv(ss, es, j);
    if i <= j { RunGrows(ss, es, i, j); } else { RunGrows(ss, es, j, i); }
    var sv := ss[j].servers[srv];
    assert SrvInv(srv, sv, ss[j].headers, ss[j].reported);
    forall k | 0 <= k < |sv.execs| ensures sv.execs[k].req.xid != xid {
      assert ExecOk(srv, sv.execs[k], ss[j].headers);
    }
  }

  /** Reply integrity: a call that returns a handler's code returns exactly the bytes produced by
      one execution of its own request, and that execution is the only one at its instance. */
  lemma ReplyIntegrity(ss: seq<Sys>, es: seq<Event>, i: nat, xid: nat) returns (srv: nat, k: nat)
    requires Run(ss, es) && i < |ss|
    requires xid in ss[i].outcomes && HandlerRet(ss[i].outcomes[xid].ret)
    ensures xid in ss[i].headers && srv in ss[i].servers && k < |ss[i].servers[srv].execs|
    ensures ss[i].servers[srv].execs[k] ==
      Exec(ss[i].headers[xid], Replied(Rep(xid, ss[i].outcomes[xid].ret, ss[i].outcomes[xid].body)))
    ensures forall k' | 0 <= k' < |ss[i].servers[srv].execs| :: ss[i].servers[srv].execs[k'].req.xid == xid ==> k' == k
  {
    hide Run, ClientInv, Evolves, Doomed, Remembered, EntryOf, HandlerResult;
    var s := ss[i];
    RunInv(ss, es, i);
    assert Explained(s.accepted, xid, s.outcomes[xid].ret, s.outcomes[xid].body);
    var m := s.accepted[xid];
    srv := m.from;
    assert MsgOk(m.rep, s.servers[srv], s.reported);
    k :| FromExec(m.rep, s.servers[srv], k);
    assert SrvInv(srv, s.servers[srv], s.headers, s.reported);
    assert ExecOk(srv, s.servers[srv].execs[k], s.headers);
  }

  /** Each call accepts at most one reply, and its result is final. */
  lemma OneReplyPerCall(ss: seq<Sys>, es: seq<Event>, i: nat, j: nat, xid: nat)
    requires Run(ss, es) && i <= j < |ss|
    ensures xid in ss[i].accepted ==> xid in ss[j].accepted && ss[j].accepted[xid] == ss[i].accepted[xid]
    ensures xid in ss[i].outcomes ==> xid in ss[j].outcomes && ss[j].outcomes[xid] == ss[i].outcomes[xid]
  {
    hide Run;
    RunGrows(ss, es, i, j);
  }

  // ---- Cancelled calls ----

  /** After a `cancel` that found calls outstanding: no new ones, and the old ones have failed. */
  ghost predicate Draining(cl: Client) {
    cl.destroyWait && forall x | x in cl.calls :: cl.calls[x].done && cl.calls[x].intret == CANCEL_FAILURE
  }

  lemma DrainStep(s: Sys, e: Event)
    requires Enabled(s, e) && Draining(s.client)
    ensures var s' := Step(s, e);
      && Draining(s'.client) && s'.client.calls.Keys <= s.client.calls.Keys
      && forall x | x in s.client.calls && x !in s'.client.calls :: x in s'.outcomes && s'.outcomes[x].ret == CANCEL_FAILURE
  {
    hide Dispatch, StoreAndSend, SetPhase, BindResult, HandlerResult, Report;
  }

  /** Every call that is outstanding when `cancel` is called returns `cancel_failure`, whatever replies
      arrive before or after; no call is begun any more; and each of them can end. */
  lemma {:induction false} CancelDrains(ss: seq<Sys>, es: seq<Event>, i: nat, j: nat)
    requires Run(ss, es) && i < j <= |es| && es[i].CancelAll? && ss[i].client.calls != map[]
    ensures Draining(ss[j].client) && ss[j].client.calls.Keys <= ss[i].client.calls.Keys
    ensures forall x | x in ss[i].client.calls && x !in ss[j].client.calls ::
      x in ss[j].outcomes && ss[j].outcomes[x].ret == CANCEL_FAILURE
    ensures forall x | x in ss[j].client.calls :: Enabled(ss[j], Finish(x))
  {
    hide Step, Inv, Draining, Init, Enabled;
    RunInv(ss, es, j);
    assert Enabled(ss[j - 1], es[j - 1]) && ss[j] == Step(ss[j - 1], es[j - 1]);
    if j == i + 1 {
      CancelStep(ss[i]);
    } else {
      CancelDrains(ss, es, i, j - 1);
      DrainStep(ss[j - 1], es[j - 1]);
      OutcomesStay(ss, es, j - 1);
    }
    forall x | x in ss[j].client.calls ensures Enabled(ss[j], Finish(x)) {
      CallsCanEnd(ss[j], x);
    }
  }

  lemma CancelStep(s: Sys)
    requires Enabled(s, CancelAll) && s.client.calls != map[]
    ensures Draining(Step(s, CancelAll).client) && Step(s, CancelAll).client.calls.Keys == s.client.calls.Keys
  {
  }

  lemma CallsCanEnd(s: Sys, x: nat)
    requires Inv(s) && x in s.client.calls
    ensures Enabled(s, Finish(x))
  {
    hide NetInv, CallInv, HeaderOk;
  }

  lemma OutcomesStay(ss: seq<Sys>, es: seq<Event>, j: nat)
    requires Run(ss, es) && j < |es|
    ensures forall x | x in ss[j].outcomes :: x in ss[j + 1].outcomes && ss[j + 1].outcomes[x] == ss[j].outcomes[x]
  {
    hide Evolves;
    RunGrows(ss, es, j, j + 1);
  }
}
