/** What a server instance remembers, said over runs: with R the largest watermark it has processed,
    its window lists exactly the executed xids from R on. */
module Watermark {
  import opened RpcTypes
  import opened RpcClient
  import opened ReplyWindow
  import opened XidWindow
  import opened RpcSystem
  import opened AtMostOnce

  function Max(a: nat, b: nat): nat {
    if a >= b then a else b
  }

  /** Event e brings a request to the window of instance srv. */
  predicate Processes(s: Sys, e: Event, srv: nat) {
    && e.Receive? && e.srv == srv && srv in s.servers && e.req in s.reqs
    && (e.req.srvNonce == 0 || e.req.srvNonce == srv) && e.req.proc in s.procs
  }

  /** The largest watermark that instance srv has processed in the first i events. */
  function Processed(ss: seq<Sys>, es: seq<Event>, srv: nat, i: nat): nat
    requires i <= |es| <= |ss|
  {
    if i == 0 then 0
    else
      var r := Processed(ss, es, srv, i - 1);
      if Processes(ss[i - 1], es[i - 1], srv) then Max(r, es[i - 1].req.xidRep) else r
  }

  ghost predicate Remembers(sv: Srv, r: nat) {
    && (forall x: nat :: Listed(sv.window, x) <==> Executed(sv, x) && x >= r)
    && (r > 0 ==> sv.window != [])
  }

  lemma TrimListed(w: seq<Entry>, xidRep: nat)
    requires Sorted(w)
    ensures forall x: nat :: Listed(Trim(w, xidRep), x) <==> Listed(w, x) && x >= xidRep
  {
    TrimKeeps(w, xidRep);
    hide Trim;
    forall x: nat ensures Listed(Trim(w, xidRep), x) <==> Listed(w, x) && x >= xidRep {
      ListedIn(w, x);
      ListedIn(Trim(w, xidRep), x);
    }
  }

  /** A NEW request lies above everything processed before it. */
  lemma NewIsAbove(sv: Srv, req: Req, r: nat)
    requires Sorted(sv.window) && Remembers(sv, r) && req.xidRep < req.xid
    requires Check(sv.window, req.xid, req.xidRep).verdict.New?
    ensures req.xid >= Max(r, req.xidRep)
  {
    var w := sv.window;
    var kept := Trim(w, req.xidRep);
    CheckMeetsSpec(w, req.xid, req.xidRep);
    TrimListed(w, req.xidRep);
    if kept != [] {
      assert Listed(kept, kept[0].xid);
    } else if w != [] {
      assert Listed(w, w[0].xid);
    }
  }

  lemma CheckListed(w: seq<Entry>, xid: nat, xidRep: nat)
    requires Sorted(w)
    ensures var c := Check(w, xid, xidRep);
      && c.window != []
      && forall x: nat :: Listed(c.window, x) <==> (Listed(w, x) && x >= xidRep) || (c.verdict.New? && x == xid)
  {
    CheckMeetsSpec(w, xid, xidRep);
    TrimListed(w, xidRep);
    hide Check, Trim;
    var c := Check(w, xid, xidRep);
    forall x: nat ensures Listed(c.window, x) <==> Listed(Trim(w, xidRep), x) || (c.verdict.New? && x == xid) {
      ListedIn(c.window, x);
      ListedIn(Trim(w, xidRep), x);
      assert c.verdict.New? ==> Entry(xid, None) in c.window;
    }
  }

  /** Processing a request raises the watermark and keeps the window exact. */
  lemma DispatchRemembers(procs: set<nat>, srv: nat, sv: Srv, req: Req, r: nat)
    requires Sorted(sv.window) && Remembers(sv, r) && req.xidRep < req.xid
    requires (req.srvNonce == 0 || req.srvNonce == srv) && req.proc in procs
    ensures Remembers(Dispatch(procs, srv, sv, req).0, Max(r, req.xidRep))
  {
    var c := Check(sv.window, req.xid, req.xidRep);
    CheckListed(sv.window, req.xid, req.xidRep);
    if c.verdict.New? {
      NewIsAbove(sv, req, r);
    }
    hide Check, TrimmedBufs, Listed, Sorted;
    var sv' := Dispatch(procs, srv, sv, req).0;
    forall x: nat ensures Executed(sv', x) <==> Executed(sv, x) || (c.verdict.New? && x == req.xid) {
      if c.verdict.New? {
        assert sv'.execs[|sv.execs|].req.xid == req.xid;
        if Executed(sv, x) {
          var i :| 0 <= i < |sv.execs| && sv.execs[i].req.xid == x;
          assert sv'.execs[i].req.xid == x;
        }
      }
    }
  }

  lemma PhaseRemembers(sv: Srv, i: nat, phase: Phase, r: nat)
    requires Remembers(sv, r) && i < |sv.execs|
    ensures Remembers(SetPhase(sv, i, phase), r)
  {
    hide Listed;
    var sv' := SetPhase(sv, i, phase);
    forall x: nat ensures Executed(sv', x) <==> Executed(sv, x) {
      if Executed(sv, x) {
        var k :| 0 <= k < |sv.execs| && sv.execs[k].req.xid == x;
        assert sv'.execs[k].req.xid == x;
      }
    }
  }

  lemma StoreRemembers(sv: Srv, i: nat, r: nat)
    requires Sorted(sv.window) && Remembers(sv, r) && i < |sv.execs| && sv.execs[i].phase.Returned?
    ensures Remembers(StoreAndSend(sv, i), r)
  {
    var rep := sv.execs[i].phase.rep;
    var x, buf := sv.execs[i].req.xid, Buffer(i, rep);
    AddReplyKeeps(sv.window, x, buf);
    hide AddReply, Executed;
    PhaseRemembers(sv, i, Replied(rep), r);
    var w' := AddReply(sv.window, x, buf);
    forall y: nat ensures Listed(w', y) <==> Listed(sv.window, y) {
      if Listed(sv.window, y) {
        var k :| 0 <= k < |sv.window| && sv.window[k].xid == y;
        assert w'[k].xid == y;
      }
    }
    assert StoreAndSend(sv, i).execs == SetPhase(sv, i, Replied(rep)).execs;
    assert forall y: nat :: Executed(StoreAndSend(sv, i), y) <==> Executed(SetPhase(sv, i, Replied(rep)), y) by {
      SameExecs(StoreAndSend(sv, i), SetPhase(sv, i, Replied(rep)));
    }
  }

  lemma SameExecs(sv: Srv, sv': Srv)
    requires sv.execs == sv'.execs
    ensures forall y: nat :: Executed(sv, y) <==> Executed(sv', y)
  {
  }

  lemma ServerFacts(s: Sys, srv: nat)
    requires Inv(s) && srv in s.servers
    ensures Sorted(s.servers[srv].window)
    ensures forall req | req in s.reqs :: req.xidRep < req.xid
  {
    hide MsgOk, Represents, CallInv, Addressed;
    assert SrvInv(srv, s.servers[srv], s.headers, s.reported);
  }

  /** One step moves an instance's window and watermark together. */
  lemma StepRemembers(s: Sys, e: Event, srv: nat, r: nat)
    requires Inv(s) && Enabled(s, e) && srv in s.servers && Remembers(s.servers[srv], r)
    ensures srv in Step(s, e).servers
    ensures Remembers(Step(s, e).servers[srv], if Processes(s, e, srv) then Max(r, e.req.xidRep) else r)
  {
    hide Inv, Remembers, StartCall, GotPdu, FinishCall, BindResult, Check, TrimmedBufs, AddReply;
    ServerFacts(s, srv);
    var sv := s.servers[srv];
    if Processes(s, e, srv) {
      DispatchRemembers(s.procs, srv, sv, e.req, r);
    } else if e.Return? && e.srv == srv {
      PhaseRemembers(sv, e.exec, Returned(Rep(sv.execs[e.exec].req.xid, e.ret, e.body)), r);
    } else if e.Reply? && e.srv == srv {
      StoreRemembers(sv, e.exec, r);
    }
  }

  lemma {:induction false} NothingProcessed(ss: seq<Sys>, es: seq<Event>, srv: nat, i: nat)
    requires Run(ss, es) && i <= |es| && srv !in ss[i].servers
    ensures Processed(ss, es, srv, i) == 0
  {
    if i > 0 {
      hide Run, Evolves;
      RunGrows(ss, es, i - 1, i);
      NothingProcessed(ss, es, srv, i - 1);
    }
  }

  /** In every run: the window lists exactly the executed xids that are at least R, and it is not
      empty once a watermark above 0 has been processed. */
  lemma {:induction false} WindowIsExact(ss: seq<Sys>, es: seq<Event>, srv: nat, i: nat)
    requires Run(ss, es) && i <= |es| && srv in ss[i].servers
    ensures Remembers(ss[i].servers[srv], Processed(ss, es, srv, i))
  {
    hide Inv, Step, Enabled, Remembers, Processes;
    if i > 0 {
      var s, e := ss[i - 1], es[i - 1];
      RunInv(ss, es, i - 1);
      assert Enabled(s, e) && ss[i] == Step(s, e);
      if srv in s.servers {
        WindowIsExact(ss, es, srv, i - 1);
        StepRemembers(s, e, srv, Processed(ss, es, srv, i - 1));
      } else {
        NothingProcessed(ss, es, srv, i - 1);
        BootRemembers(s, e, srv);
      }
    }
  }

  lemma BootRemembers(s: Sys, e: Event, srv: nat)
    requires Enabled(s, e) && srv !in s.servers && srv in Step(s, e).servers
    ensures Remembers(Step(s, e).servers[srv], 0) && !Processes(s, e, srv)
  {
    hide Dispatch, StoreAndSend, SetPhase, StartCall, GotPdu, FinishCall, BindResult;
    assert Step(s, e).servers[srv] == Srv([], [], []);
  }

  /** Exactly when a request that the instance has not executed is refused, in any run: some executed
      xid is at or above both the processed watermarks and the request's own, and all such are above
      the request. */
  lemma RefusedIff(ss: seq<Sys>, es: seq<Event>, srv: nat, i: nat)
    requires Run(ss, es) && i < |es| && Processes(ss[i], es[i], srv)
    requires !Executed(ss[i].servers[srv], es[i].req.xid)
    ensures var sv, req := ss[i].servers[srv], es[i].req;
      var r := Max(Processed(ss, es, srv, i), req.xidRep);
      Check(sv.window, req.xid, req.xidRep).verdict.Forgotten? <==>
        && (exists y: nat :: Executed(sv, y) && y >= r)
        && (forall y: nat | Executed(sv, y) && y >= r :: y > req.xid)
  {
    WindowIsExact(ss, es, srv, i);
    RunInv(ss, es, i);
    ServerFacts(ss[i], srv);
    RefusedByWindowIff(ss[i].servers[srv], es[i].req, Processed(ss, es, srv, i));
  }

  lemma RefusedByWindowIff(sv: Srv, req: Req, r0: nat)
    requires Sorted(sv.window) && Remembers(sv, r0) && !Executed(sv, req.xid)
    ensures var r := Max(r0, req.xidRep);
      Check(sv.window, req.xid, req.xidRep).verdict.Forgotten? <==>
        && (exists y: nat :: Executed(sv, y) && y >= r)
        && (forall y: nat | Executed(sv, y) && y >= r :: y > req.xid)
  {
    hide Check, Executed;
    var w := sv.window;
    FreshRefusedIff(w, req.xid, req.xidRep);
    forall x: nat ensures Listed(w, x) <==> exists e :: e in w && e.xid == x {
      ListedIn(w, x);
    }
    hide Listed;
    var r := Max(r0, req.xidRep);
    forall e | e in w && e.xid >= req.xidRep ensures Executed(sv, e.xid) && e.xid >= r {
      assert Listed(w, e.xid);
    }
    forall y: nat | Executed(sv, y) && y >= r ensures exists e :: e in w && e.xid >= req.xidRep && e.xid == y {
      assert Listed(w, y);
    }
  }
}
