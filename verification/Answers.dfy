/** What a server instance sends in answer to a request, over runs, read off its execution log and the
    watermarks it has processed. */
module Answers {
  import opened RpcTypes
  import opened RpcClient
  import opened ReplyWindow
  import opened XidWindow
  import opened RpcSystem
  import opened AtMostOnce
  import opened Watermark

  function Refusal(srv: nat, xid: nat): set<Msg> {
    {Msg(srv, Rep(xid, ATMOSTONCE_FAILURE, []))}
  }

  /** Execution k is of this xid. */
  ghost predicate ExecAt(sv: Srv, x: nat, k: nat) {
    k < |sv.execs| && sv.execs[k].req.xid == x
  }

  /** Some executed xid is at or above r, and all such are above x. */
  ghost predicate OnlyNewer(sv: Srv, x: nat, r: nat) {
    && (exists y: nat :: Executed(sv, y) && y >= r)
    && (forall y: nat | Executed(sv, y) && y >= r :: y > x)
  }

  /** The verdict on an executed xid from R on is that of its execution. */
  lemma ListedVerdict(srv: nat, sv: Srv, req: Req, headers: map<nat, Req>, reported: set<nat>, r: nat, k: nat)
    requires SrvInv(srv, sv, headers, reported) && Remembers(sv, r) && req.xidRep < req.xid
    requires ExecAt(sv, req.xid, k) && req.xid >= r
    ensures Check(sv.window, req.xid, req.xidRep).verdict ==
      match sv.execs[k].phase
      case Replied(rep) => Verdict.Done(Buffer(k, rep))
      case _ => InProgress
  {
    hide Check, Trim, HandlerResult, Remembered, ExecOk, Sorted;
    var w := sv.window;
    assert Executed(sv, req.xid);
    ListedIn(w, req.xid);
    var e :| e in w && e.xid == req.xid;
    var i: nat :| EntryOf(e, sv.execs, i);
    assert i == k;
    CheckMeetsSpec(w, req.xid, req.xidRep);
    TrimKeeps(w, req.xidRep);
    assert e in Trim(w, req.xidRep);
  }

  /** An executed xid below R has been trimmed, and is refused. */
  lemma TrimmedVerdict(srv: nat, sv: Srv, req: Req, headers: map<nat, Req>, c: nat, reported: set<nat>, r: nat)
    requires SrvInv(srv, sv, headers, reported) && Remembers(sv, r) && HeaderOk(req, req.xid, c, reported)
    requires Executed(sv, req.xid) && req.xid < r
    ensures Check(sv.window, req.xid, req.xidRep).verdict.Forgotten?
  {
    hide Check, Trim, HandlerResult, Remembered, ExecOk, EntryOf, Executed;
    var w := sv.window;
    if Check(w, req.xid, req.xidRep).verdict.New? {
      NewIsFresh(req, headers, c, reported, srv, sv);
    }
    assert !Listed(w, req.xid);
    CheckMeetsSpec(w, req.xid, req.xidRep);
    TrimListed(w, req.xidRep);
    var kept := Trim(w, req.xidRep);
    ListedIn(kept, req.xid);
  }

  /** The whole table of answers for one request that passes the nonce and procedure tests. */
  ghost predicate Answered(srv: nat, sv: Srv, req: Req, r: nat, sv': Srv, out: set<Msg>) {
    var x := req.xid;
    && (forall k: nat | ExecAt(sv, x, k) :: sv'.execs == sv.execs &&
         out == if x < r then Refusal(srv, x)
                else if sv.execs[k].phase.Replied? then {Msg(srv, sv.execs[k].phase.rep)}
                else {})
    && (!Executed(sv, x) ==>
         if OnlyNewer(sv, x, Max(r, req.xidRep)) then sv'.execs == sv.execs && out == Refusal(srv, x)
         else sv'.execs == sv.execs + [Exec(req, Running)] && out == {})
  }

  lemma DispatchAnswered(procs: set<nat>, srv: nat, sv: Srv, req: Req, headers: map<nat, Req>, c: nat, reported: set<nat>, r: nat)
    requires SrvInv(srv, sv, headers, reported) && Remembers(sv, r) && HeaderOk(req, req.xid, c, reported)
    requires (req.srvNonce == 0 || req.srvNonce == srv) && req.proc in procs
    ensures var (sv', out) := Dispatch(procs, srv, sv, req); Answered(srv, sv, req, r, sv', out)
  {
    hide Check, TrimmedBufs, SrvInv, Remembers, OnlyNewer, HeaderOk;
    IsSorted(srv, sv, headers, reported);
    RepBelow(req, c, reported);
    forall k: nat | ExecAt(sv, req.xid, k)
      ensures var (sv', out) := Dispatch(procs, srv, sv, req);
        sv'.execs == sv.execs &&
        out == if req.xid < r then Refusal(srv, req.xid)
               else if sv.execs[k].phase.Replied? then {Msg(srv, sv.execs[k].phase.rep)}
               else {}
    {
      if req.xid < r {
        assert Executed(sv, req.xid);
        TrimmedVerdict(srv, sv, req, headers, c, reported, r);
      } else {
        ListedVerdict(srv, sv, req, headers, reported, r, k);
      }
    }
    if !Executed(sv, req.xid) {
      FreshVerdict(srv, sv, req, headers, reported, r);
    }
  }

  lemma IsSorted(srv: nat, sv: Srv, headers: map<nat, Req>, reported: set<nat>)
    requires SrvInv(srv, sv, headers, reported)
    ensures Sorted(sv.window)
  {
  }

  lemma RepBelow(req: Req, c: nat, reported: set<nat>)
    requires HeaderOk(req, req.xid, c, reported)
    ensures req.xidRep < req.xid
  {
  }

  lemma FreshVerdict(srv: nat, sv: Srv, req: Req, headers: map<nat, Req>, reported: set<nat>, r: nat)
    requires SrvInv(srv, sv, headers, reported) && Remembers(sv, r) && !Executed(sv, req.xid)
    ensures var v := Check(sv.window, req.xid, req.xidRep).verdict;
      if OnlyNewer(sv, req.xid, Max(r, req.xidRep)) then v.Forgotten? else v.New?
  {
    hide Check, Trim, SrvInv, Executed, Remembers;
    IsSorted(srv, sv, headers, reported);
    RefusedByWindowIff(sv, req, r);
    CheckMeetsSpec(sv.window, req.xid, req.xidRep);
    NotKept(sv, req, r);
  }

  lemma NotKept(sv: Srv, req: Req, r: nat)
    requires Sorted(sv.window) && Remembers(sv, r) && !Executed(sv, req.xid)
    ensures forall e | e in Trim(sv.window, req.xidRep) :: e.xid != req.xid
  {
    hide Executed, Trim;
    TrimListed(sv.window, req.xidRep);
    ListedIn(Trim(sv.window, req.xidRep), req.xid);
  }

  /** Every answer of an instance, in every run. R is the largest watermark it has processed. A request
      for another instance gets `oldsrv_failure`; one for an unknown procedure nothing. Otherwise, if
      it was executed here: exactly the stored reply from the moment the handler's reply is stored,
      nothing before, and one `atmostonce_failure` when the xid is below R. If it was not: one
      `atmostonce_failure` if all that is remembered is newer, or else it is executed and nothing is
      sent yet. */
  lemma AnswersExactly(ss: seq<Sys>, es: seq<Event>, i: nat)
    requires Run(ss, es) && i < |es| && es[i].Receive?
    ensures es[i].srv in ss[i].servers
    ensures var s, srv, req := ss[i], es[i].srv, es[i].req;
      var sv := s.servers[srv];
      var (sv', out) := Dispatch(s.procs, srv, sv, req);
      && ss[i + 1].reps == s.reps + out && ss[i + 1].servers == s.servers[srv := sv']
      && (req.srvNonce != 0 && req.srvNonce != srv ==>
           sv' == sv && out == {Msg(srv, Rep(req.xid, OLDSRV_FAILURE, []))})
      && (req.srvNonce == 0 || req.srvNonce == srv ==>
           (req.proc !in s.procs ==> sv' == sv && out == {})
           && (req.proc in s.procs ==> Answered(srv, sv, req, Processed(ss, es, srv, i), sv', out)))
  {
    hide Inv, Answered, Check, TrimmedBufs, Processed;
    var s, srv, req := ss[i], es[i].srv, es[i].req;
    assert Enabled(s, es[i]) && ss[i + 1] == Step(s, es[i]);
    RunInv(ss, es, i);
    ReceiveFacts(s, srv, req);
    if (req.srvNonce == 0 || req.srvNonce == srv) && req.proc in s.procs {
      WindowIsExact(ss, es, srv, i);
      DispatchAnswered(s.procs, srv, s.servers[srv], req, s.headers, s.client.cltNonce, s.reported, Processed(ss, es, srv, i));
    }
  }

  lemma ReceiveFacts(s: Sys, srv: nat, req: Req)
    requires Inv(s) && srv in s.servers && req in s.reqs
    ensures SrvInv(srv, s.servers[srv], s.headers, s.reported)
    ensures HeaderOk(req, req.xid, s.client.cltNonce, s.reported)
    ensures req.xid in s.headers && s.headers[req.xid] == req
  {
    hide MsgOk, Represents, CallInv, Addressed, SrvInv;
  }

  // ---- The reply of a handler ----

  /** A handler's result becomes the reply to the xid of its request, and that reply is then sent. */
  lemma ReplyExactly(ss: seq<Sys>, es: seq<Event>, n: nat)
    requires Run(ss, es) && n < |es| && (es[n].Return? || es[n].Reply?)
    ensures es[n].srv in ss[n].servers && es[n].exec < |ss[n].servers[es[n].srv].execs|
    ensures es[n].srv in ss[n + 1].servers && es[n].exec < |ss[n + 1].servers[es[n].srv].execs|
    ensures var e, x, x' := es[n], ss[n].servers[es[n].srv].execs[es[n].exec], ss[n + 1].servers[es[n].srv].execs[es[n].exec];
      && x'.req == x.req
      && (e.Return? ==>
            x.phase == Running && x'.phase == Returned(Rep(x.req.xid, e.ret, e.body)) && ss[n + 1].reps == ss[n].reps)
      && (e.Reply? ==>
            x.phase.Returned? && x'.phase == Replied(x.phase.rep)
            && ss[n + 1].reps == ss[n].reps + {Msg(e.srv, x.phase.rep)})
  {
    assert Enabled(ss[n], es[n]) && ss[n + 1] == Step(ss[n], es[n]);
    hide Run, HandlerResult, AddReply;
  }

  ghost predicate SentInv(s: Sys) {
    forall srv | srv in s.servers :: AllSent(srv, s.servers[srv], s.reps)
  }

  ghost predicate AllSent(srv: nat, sv: Srv, reps: set<Msg>) {
    forall k | 0 <= k < |sv.execs| && sv.execs[k].phase.Replied? :: Msg(srv, sv.execs[k].phase.rep) in reps
  }

  lemma StepKeepsSent(s: Sys, e: Event)
    requires SentInv(s) && Enabled(s, e)
    ensures SentInv(Step(s, e))
  {
    hide Check, TrimmedBufs, AddReply, StartCall, GotPdu, FinishCall, Cancel, BindResult, HandlerResult;
    var s' := Step(s, e);
    forall srv | srv in s'.servers ensures AllSent(srv, s'.servers[srv], s'.reps) {
      assert srv in s.servers ==> AllSent(srv, s.servers[srv], s.reps);
    }
  }

  /** In every run, once the reply of an execution is stored, it is in the network. */
  lemma {:induction false} StoredIsSent(ss: seq<Sys>, es: seq<Event>, n: nat)
    requires Run(ss, es) && n <= |es|
    ensures SentInv(ss[n])
  {
    if n > 0 {
      StoredIsSent(ss, es, n - 1);
      hide Step, Enabled, SentInv;
      assert Enabled(ss[n - 1], es[n - 1]) && ss[n] == Step(ss[n - 1], es[n - 1]);
      StepKeepsSent(ss[n - 1], es[n - 1]);
    }
  }

  // ---- oldsrv_failure ----

  /** Who says `oldsrv_failure` is not the instance that the request is for. */
  ghost predicate OldSrvInv(s: Sys) {
    forall m | m in s.reps && m.rep.ret == OLDSRV_FAILURE :: ForAnother(s, m)
  }

  ghost predicate ForAnother(s: Sys, m: Msg) {
    m.rep.xid in s.headers && s.headers[m.rep.xid].srvNonce != 0 && s.headers[m.rep.xid].srvNonce != m.from
  }

  lemma DispatchOldSrv(s: Sys, srv: nat, req: Req, m: Msg)
    requires Inv(s) && srv in s.servers && req in s.reqs
    requires m in Dispatch(s.procs, srv, s.servers[srv], req).1 && m.rep.ret == OLDSRV_FAILURE
    ensures ForAnother(s, m)
  {
    ReceiveFacts(s, srv, req);
    hide Inv, Check, TrimmedBufs, SrvInv, HeaderOk;
    if Check(s.servers[srv].window, req.xid, req.xidRep).verdict.Done? {
      StoredIsNotOldSrv(s, srv, req);
    }
  }

  lemma StoredIsNotOldSrv(s: Sys, srv: nat, req: Req)
    requires Inv(s) && srv in s.servers && req in s.reqs
    ensures var v := Check(s.servers[srv].window, req.xid, req.xidRep).verdict; v.Done? ==> v.buf.rep.ret != OLDSRV_FAILURE
  {
    ReceiveFacts(s, srv, req);
    hide Inv, Check, SrvInv, HeaderOk;
    var v := Check(s.servers[srv].window, req.xid, req.xidRep).verdict;
    if v.Done? {
      DoneIsFromExec(srv, s.servers[srv], req, s.headers, s.reported, v.buf);
      var k: nat :| FromExec(v.buf.rep, s.servers[srv], k);
      HandlerRepliesAreHandlerRets(srv, s.servers[srv], s.headers, s.reported, v.buf.rep, k);
    }
  }

  lemma ReplyIsNotOldSrv(s: Sys, srv: nat, k: nat)
    requires Inv(s) && srv in s.servers && k < |s.servers[srv].execs| && s.servers[srv].execs[k].phase.Returned?
    ensures s.servers[srv].execs[k].phase.rep.ret != OLDSRV_FAILURE
  {
    hide ClientInv, CallInv, MsgOk, EntryOf, Remembered;
    assert SrvInv(srv, s.servers[srv], s.headers, s.reported);
    assert ExecOk(srv, s.servers[srv].execs[k], s.headers);
  }

  lemma StepKeepsOldSrv(s: Sys, e: Event)
    requires Inv(s) && OldSrvInv(s) && Enabled(s, e)
    ensures OldSrvInv(Step(s, e))
  {
    hide Inv, Dispatch, StoreAndSend, SetPhase, GotPdu, BindResult, HandlerResult, ForAnother;
    HistoryGrows(s, e);
    var s' := Step(s, e);
    forall m | m in s'.reps && m.rep.ret == OLDSRV_FAILURE ensures ForAnother(s', m) {
      if m in s.reps {
        SameForAnother(s, s', m);
      } else if e.Receive? {
        DispatchOldSrv(s, e.srv, e.req, m);
        SameForAnother(s, s', m);
      } else {
        ReplyIsNotOldSrv(s, e.srv, e.exec);
      }
    }
  }

  lemma SameForAnother(s: Sys, s': Sys, m: Msg)
    requires ForAnother(s, m) && forall x | x in s.headers :: x in s'.headers && s'.headers[x] == s.headers[x]
    ensures ForAnother(s', m)
  {
  }

  lemma {:induction false} RunOldSrv(ss: seq<Sys>, es: seq<Event>, i: nat)
    requires Run(ss, es) && i <= |es|
    ensures OldSrvInv(ss[i])
  {
    if i > 0 {
      RunOldSrv(ss, es, i - 1);
      RunInv(ss, es, i - 1);
      hide Inv, Step, Enabled, OldSrvInv;
      assert Enabled(ss[i - 1], es[i - 1]) && ss[i] == Step(ss[i - 1], es[i - 1]);
      StepKeepsOldSrv(ss[i - 1], es[i - 1]);
    }
  }

  /** `oldsrv_failure` is truthful: the request carries the nonce of another instance, and the instance
      that said so never executes it, in any state of the run. */
  lemma OldSrvIsTruthful(ss: seq<Sys>, es: seq<Event>, i: nat, m: Msg)
    requires Run(ss, es) && i <= |es| && m in ss[i].reps && m.rep.ret == OLDSRV_FAILURE
    ensures m.rep.xid in ss[i].headers
    ensures ss[i].headers[m.rep.xid].srvNonce != 0 && ss[i].headers[m.rep.xid].srvNonce != m.from
    ensures NeverExecutedBy(ss, m.from, m.rep.xid)
  {
    RunOldSrv(ss, es, i);
    hide Run, Executed;
    assert ForAnother(ss[i], m);
    forall j | 0 <= j < |ss| && m.from in ss[j].servers ensures !Executed(ss[j].servers[m.from], m.rep.xid) {
      NotAddressedNotExecuted(ss, es, i, j, m.from, m.rep.xid);
    }
  }
}
