/** Why `QuietRuns` needs its condition: two runs of the RPC system in which a call times out, one that
    refuses a request on its first arrival and one that loses a stored reply. */
module TimeoutRuns {
  import opened RpcTypes
  import opened RpcClient
  import opened ReplyWindow
  import opened XidWindow
  import opened RpcSystem
  import opened QuietRuns
  import Codec

  const WORK: nat := 2
  const PROCS: set<nat> := {BIND, WORK}
  const BIND_REQ: Req := Req(1, BIND, 1, 0, 0, [0, 0, 0, 0])

  function BindRep(srv: nat): Rep {
    Rep(1, 0, Codec.EncU32(srv))
  }

  function WorkReq(srv: nat, xid: nat, xidRep: nat): Req {
    Req(xid, WORK, 1, srv, xidRep, [])
  }

  /** A run that ends in s and in which no server has received a request with xid x. */
  ghost predicate Ends(ss: seq<Sys>, es: seq<Event>, s: Sys, x: nat) {
    && Run(ss, es) && ss[|es|] == s
    && forall j | 0 <= j < |es| && es[j].Receive? :: es[j].req.xid != x
  }

  ghost predicate Reached(s: Sys, x: nat) {
    exists ss, es :: Ends(ss, es, s, x)
  }

  lemma Extend(s: Sys, e: Event, x: nat)
    requires Reached(s, x) && Enabled(s, e) && (e.Receive? ==> e.req.xid != x)
    ensures Reached(Step(s, e), x)
  {
    hide Enabled, Step, Init;
    var ss, es :| Ends(ss, es, s, x);
    var ss', es' := ss + [Step(s, e)], es + [e];
    forall i | 0 <= i < |es'| ensures Enabled(ss'[i], es'[i]) && ss'[i + 1] == Step(ss'[i], es'[i]) {
      assert i < |es| ==> ss'[i] == ss[i] && ss'[i + 1] == ss[i + 1] && es'[i] == es[i];
    }
    assert Ends(ss', es', Step(s, e), x);
  }

  // ---- The bind that both runs begin with ----

  lemma Fresh(x: nat) returns (s: Sys)
    ensures Reached(s, x)
    ensures s == Sys(NewClient(1), map[], {}, map[], map[], {}, {}, {}, PROCS, map[])
  {
    s := Sys(NewClient(1), map[], {}, map[], map[], {}, {}, {}, PROCS, map[]);
    var ss: seq<Sys>, es: seq<Event> := [s], [];
    assert Ends(ss, es, s, x);
  }

  lemma BindArrives(srv: nat, x: nat) returns (s: Sys)
    requires 0 < srv < Codec.U32 && x != 1
    ensures Reached(s, x)
    ensures s.client == Client(1, false, 0, 2, map[1 := Caller(BIND_REQ, false, 0, [])], [0], false)
    ensures s.servers == map[srv := Srv([Entry(1, None)], [Exec(BIND_REQ, Running)], [])]
    ensures s.procs == PROCS && s.reqs == {BIND_REQ}
  {
    hide Reached;
    s := Fresh(x);
    var e := Start(BIND, [0, 0, 0, 0]);
    Extend(s, e, x);
    s := Step(s, e);
    Extend(s, Transmit(1), x);
    s := Step(s, Transmit(1));
    Extend(s, Boot(srv), x);
    s := Step(s, Boot(srv));
    assert Check([], 1, 0) == CheckResult(New, [Entry(1, None)]);
    Extend(s, Receive(srv, BIND_REQ), x);
    s := Step(s, Receive(srv, BIND_REQ));
    assert TrimmedBufs([], 0) == [];
    assert s.servers[srv].execs == [Exec(BIND_REQ, Running)] && s.servers[srv].freed == [];
  }

  lemma BindAnswered(srv: nat, x: nat) returns (s: Sys)
    requires 0 < srv < Codec.U32 && x != 1
    ensures Reached(s, x)
    ensures s.client == Client(1, false, 0, 2, map[1 := Caller(BIND_REQ, false, 0, [])], [0], false)
    ensures s.servers == map[srv := BoundServer(srv)]
    ensures s.procs == PROCS && s.reqs == {BIND_REQ} && Msg(srv, BindRep(srv)) in s.reps
  {
    hide Reached, Codec.EncU32;
    s := BindArrives(srv, x);
    var e := Return(srv, 0, 0, Codec.EncU32(srv));
    Extend(s, e, x);
    s := Step(s, e);
    Extend(s, Reply(srv, 0), x);
    s := Step(s, Reply(srv, 0));
    assert AddReply([Entry(1, None)], 1, Buffer(0, BindRep(srv))) == [Entry(1, Some(Buffer(0, BindRep(srv))))];
    assert s.servers[srv].execs == [Exec(BIND_REQ, Replied(BindRep(srv)))];
    assert s.servers[srv] == BoundServer(srv);
  }

  function BoundServer(srv: nat): Srv {
    Srv([Entry(1, Some(Buffer(0, BindRep(srv))))], [Exec(BIND_REQ, Replied(BindRep(srv)))], [])
  }

  lemma ReportNext(n: nat)
    ensures Report([n], n + 1) == [n + 1] && Report([n + 1], n + 1) == [n + 1]
  {
    assert Insert([n], n + 1) == [n] + Insert([n][1..], n + 1) == [n, n + 1];
    assert [n, n + 1][1..] == [n + 1];
    assert Compress([n, n + 1]) == Compress([n + 1]) == [n + 1];
  }

  /** The client is bound and has called nothing else yet. */
  lemma Bound(srv: nat, x: nat) returns (s: Sys)
    requires 0 < srv < Codec.U32 && x != 1
    ensures Reached(s, x)
    ensures s.client == Client(1, true, srv, 2, map[], [1], false)
    ensures s.servers == map[srv := BoundServer(srv)] && s.procs == PROCS
  {
    hide Reached, Codec.EncU32, BindResult, Report, Codec.GetU32;
    ReportNext(0);
    BindBody(srv);
    s := BindAnswered(srv, x);
    var e := Deliver(Msg(srv, BindRep(srv)));
    Extend(s, e, x);
    s := Step(s, e);
    Extend(s, Finish(1), x);
    s := Step(s, Finish(1));
    assert s.client.calls == map[];
    Extend(s, EndBind(1), x);
    s := Step(s, EndBind(1));
  }

  // ---- Single steps of a bound client ----

  /** Call n is made with the watermark r. */
  lemma CallWork(s: Sys, srv: nat, n: nat, calls: map<nat, Caller>, r: nat, x: nat) returns (s': Sys)
    requires Reached(s, x) && s.client == Client(1, true, srv, n, calls, [r], false)
    ensures Reached(s', x) && s'.servers == s.servers && s'.procs == s.procs && s'.reqs == s.reqs
    ensures s'.client ==
      Client(1, true, srv, n + 1, calls[n := Caller(WorkReq(srv, n, r), false, 0, [])], [r], false)
  {
    hide Reached;
    Extend(s, Start(WORK, []), x);
    s' := Step(s, Start(WORK, []));
  }

  /** Call n, the next above the watermark, times out. */
  lemma TimeOut(s: Sys, srv: nat, calls: map<nat, Caller>, r: nat, x: nat) returns (s': Sys)
    requires Reached(s, x) && s.client == Client(1, true, srv, r + 2, calls, [r], false) && calls.Keys == {r + 1}
    ensures Reached(s', x) && s'.servers == s.servers && s'.procs == s.procs && s'.reqs == s.reqs
    ensures s'.client == Client(1, true, srv, r + 2, map[], [r + 1], false)
  {
    hide Reached, Report;
    ReportNext(r);
    Extend(s, Finish(r + 1), x);
    s' := Step(s, Finish(r + 1));
    assert s'.client.calls == map[];
  }

  lemma SendWork(s: Sys, n: nat, x: nat) returns (s': Sys)
    requires Reached(s, x) && |s.client.repWindow| > 0 && n in s.client.calls
    ensures Reached(s', x) && s'.servers == s.servers && s'.procs == s.procs && s'.client == s.client
    ensures s'.reqs == s.reqs + {s.client.calls[n].req}
  {
    hide Reached;
    Extend(s, Transmit(n), x);
    s' := Step(s, Transmit(n));
  }

  /** A request is received, is new, and its window is left as w with the buffers `freed` gone. */
  lemma ReceiveNew(s: Sys, srv: nat, sv: Srv, req: Req, w: seq<Entry>, freed: seq<nat>, x: nat) returns (s': Sys)
    requires Reached(s, x) && |s.client.repWindow| > 0 && req in s.reqs && req.xid != x
    requires s.servers == map[srv := sv] && req.proc in s.procs && req.srvNonce == srv
    requires Check(sv.window, req.xid, req.xidRep) == CheckResult(New, w)
    requires TrimmedBufs(sv.window, req.xidRep) == freed
    ensures Reached(s', x) && s'.client == s.client && s'.procs == s.procs && s'.reqs == s.reqs
    ensures s'.servers == map[srv := Srv(w, sv.execs + [Exec(req, Running)], sv.freed + freed)]
  {
    hide Reached, Check, TrimmedBufs;
    Extend(s, Receive(srv, req), x);
    s' := Step(s, Receive(srv, req));
  }

  // ---- A needless refusal ----

  /** The last event is the first arrival of a request for which a call still waits, at an instance
      that has not executed it, and it is refused. */
  ghost predicate RefusesFirstArrival(ss: seq<Sys>, es: seq<Event>) {
    && |ss| == |es| + 1 && es != []
    && var s, e := ss[|es| - 1], es[|es| - 1];
    && e.Receive? && e.srv in s.servers && e.req.srvNonce == e.srv && e.req.proc in s.procs
    && Awaits(s.client, e.req.xid)
    && !Executed(s.servers[e.srv], e.req.xid)
    && (forall j | 0 <= j < |es| - 1 && es[j].Receive? :: es[j].req != e.req)
    && Check(s.servers[e.srv].window, e.req.xid, e.req.xidRep).verdict.Forgotten?
    && Msg(e.srv, Rep(e.req.xid, ATMOSTONCE_FAILURE, [])) in ss[|es|].reps
  }

  /** Call 2 times out before it is sent, so 3 and 4 carry the watermark 2; 4 arrives first. */
  lemma BeforeRefusal(srv: nat) returns (s: Sys)
    requires 0 < srv < Codec.U32
    ensures Reached(s, 3) && s.procs == PROCS && WorkReq(srv, 3, 2) in s.reqs
    ensures |s.client.repWindow| > 0 && Awaits(s.client, 3)
    ensures s.servers == map[srv := Srv([Entry(4, None)],
      [Exec(BIND_REQ, Replied(BindRep(srv))), Exec(WorkReq(srv, 4, 2), Running)], [0])]
  {
    hide Reached, Check, TrimmedBufs;
    s := Bound(srv, 3);
    s := CallWork(s, srv, 2, map[], 1, 3);
    s := TimeOut(s, srv, s.client.calls, 1, 3);
    s := CallWork(s, srv, 3, map[], 2, 3);
    s := CallWork(s, srv, 4, s.client.calls, 2, 3);
    s := SendWork(s, 3, 3);
    s := SendWork(s, 4, 3);
    TrimsBind(Buffer(0, BindRep(srv)));
    s := ReceiveNew(s, srv, BoundServer(srv), WorkReq(srv, 4, 2), [Entry(4, None)], [0], 3);
    assert s.servers[srv].execs == [Exec(BIND_REQ, Replied(BindRep(srv))), Exec(WorkReq(srv, 4, 2), Running)];
    assert s.servers[srv].freed == [0];
  }

  lemma TrimsBind(bind: Buffer)
    ensures Check([Entry(1, Some(bind))], 4, 2) == CheckResult(New, [Entry(4, None)])
    ensures TrimmedBufs([Entry(1, Some(bind))], 2) == [bind.id]
    ensures Check([Entry(4, None)], 3, 2) == CheckResult(Forgotten, [Entry(4, None)])
  {
    var w := [Entry(1, Some(bind))];
    assert w[1..] == [];
    assert Trim(w[1..], 2) == [] && TrimmedBufs(w[1..], 2) == [];
    assert Trim([Entry(4, None)], 2) == [Entry(4, None)];
    assert Lookup([Entry(4, None)][1..], 3) == None;
  }

  /** With a timeout, a request can be refused on its first arrival. */
  lemma TimeoutCausesRefusal()
    ensures exists ss: seq<Sys>, es: seq<Event> :: Run(ss, es) && RefusesFirstArrival(ss, es)
  {
    hide Check, Trim, TrimmedBufs, Init;
    var srv := 1;
    var s := BeforeRefusal(srv);
    var req := WorkReq(srv, 3, 2);
    var e := Receive(srv, req);
    var ss, es :| Ends(ss, es, s, 3);
    TrimsBind(Buffer(0, BindRep(srv)));
    var ss', es' := ss + [Step(s, e)], es + [e];
    forall i | 0 <= i < |es'| ensures Enabled(ss'[i], es'[i]) && ss'[i + 1] == Step(ss'[i], es'[i]) {
      assert i < |es| ==> ss'[i] == ss[i] && ss'[i + 1] == ss[i + 1] && es'[i] == es[i];
    }
    assert ss'[|es|] == s && es'[|es|] == e;
    assert Run(ss', es') && RefusesFirstArrival(ss', es');
  }

  // ---- A lost reply ----

  /** After the last event a handler's reply has been stored, but the window does not own its buffer
      and nobody has freed it. */
  ghost predicate LosesReply(ss: seq<Sys>, es: seq<Event>) {
    && |ss| == |es| + 1 && es != []
    && var s, e := ss[|es|], es[|es| - 1];
    && e.Reply? && e.srv in s.servers && e.exec < |s.servers[e.srv].execs|
    && s.servers[e.srv].execs[e.exec].phase.Replied?
    && !Owns(s.servers[e.srv].window, e.exec) && e.exec !in s.servers[e.srv].freed
  }

  /** Call 2 runs and times out, 3 times out, and 4 arrives with the watermark 3 before 2 returns. */
  lemma BeforeLoss(srv: nat) returns (s: Sys)
    requires 0 < srv < Codec.U32
    ensures Reached(s, 0) && |s.client.repWindow| > 0
    ensures s.servers == map[srv := Srv([Entry(4, None)],
      [Exec(BIND_REQ, Replied(BindRep(srv))), Exec(WorkReq(srv, 2, 1), Running), Exec(WorkReq(srv, 4, 3), Running)], [0])]
  {
    hide Reached, Check, TrimmedBufs;
    var bind := Buffer(0, BindRep(srv));
    TrimsRunning(bind);
    s := Bound(srv, 0);
    s := CallWork(s, srv, 2, map[], 1, 0);
    s := SendWork(s, 2, 0);
    s := ReceiveNew(s, srv, BoundServer(srv), WorkReq(srv, 2, 1), [Entry(1, Some(bind)), Entry(2, None)], [], 0);
    var sv := s.servers[srv];
    s := TimeOut(s, srv, s.client.calls, 1, 0);
    s := CallWork(s, srv, 3, map[], 2, 0);
    s := TimeOut(s, srv, s.client.calls, 2, 0);
    s := CallWork(s, srv, 4, map[], 3, 0);
    s := SendWork(s, 4, 0);
    s := ReceiveNew(s, srv, sv, WorkReq(srv, 4, 3), [Entry(4, None)], [0], 0);
    assert s.servers[srv].execs ==
      [Exec(BIND_REQ, Replied(BindRep(srv))), Exec(WorkReq(srv, 2, 1), Running), Exec(WorkReq(srv, 4, 3), Running)];
    assert s.servers[srv].freed == [0];
  }

  lemma TrimsRunning(bind: Buffer)
    ensures Check([Entry(1, Some(bind))], 2, 1) == CheckResult(New, [Entry(1, Some(bind)), Entry(2, None)])
    ensures TrimmedBufs([Entry(1, Some(bind))], 1) == []
    ensures Check([Entry(1, Some(bind)), Entry(2, None)], 4, 3) == CheckResult(New, [Entry(4, None)])
    ensures TrimmedBufs([Entry(1, Some(bind)), Entry(2, None)], 3) == [bind.id]
  {
    var v, w := [Entry(1, Some(bind))], [Entry(1, Some(bind)), Entry(2, None)];
    assert v[1..] == [] && w[1..] == [Entry(2, None)] && w[1..][1..] == [];
    assert Lookup(v[1..], 2) == None && InsertNew(v[1..], 2) == [Entry(2, None)];
    assert Trim(w[1..][1..], 3) == [] && TrimmedBufs(w[1..][1..], 3) == [];
    assert Trim(w[1..], 3) == [] && TrimmedBufs(w[1..], 3) == [];
  }

  /** With timeouts, an entry can be trimmed while its handler runs, and then its reply is lost. */
  lemma TimeoutLosesReply()
    ensures exists ss: seq<Sys>, es: seq<Event> :: Run(ss, es) && LosesReply(ss, es)
  {
    hide Check, Trim, TrimmedBufs, Init;
    var srv := 1;
    var s := BeforeLoss(srv);
    var e0, e1 := Return(srv, 1, 0, []), Reply(srv, 1);
    Extend(s, e0, 0);
    var s1 := Step(s, e0);
    var ss, es :| Ends(ss, es, s1, 0);
    var s2 := Step(s1, e1);
    assert AddReply([Entry(4, None)][1..], 2, Buffer(1, Rep(2, 0, []))) == [];
    assert s2.servers[srv].window == [Entry(4, None)];
    var ss', es' := ss + [s2], es + [e1];
    forall i | 0 <= i < |es'| ensures Enabled(ss'[i], es'[i]) && ss'[i + 1] == Step(ss'[i], es'[i]) {
      assert i < |es| ==> ss'[i] == ss[i] && ss'[i + 1] == ss[i + 1] && es'[i] == es[i];
    }
    assert ss'[|es'|] == s2 && es'[|es|] == e1;
    assert Run(ss', es') && LosesReply(ss', es');
  }
}
