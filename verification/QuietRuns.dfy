/** Runs without timeouts and cancels, against one server instance, in which the first call is the
    only bind: there no request is refused needlessly and no reply buffer is lost. The buffer log is
    sound in every run. */
module QuietRuns {
  import opened RpcTypes
  import opened ReplyWindow
  import opened XidWindow
  import opened RpcSystem
  import opened AtMostOnce

  // ---- The buffer log, in every run ----

  /** Window w owns the buffer that execution b allocated. */
  ghost predicate Owns(w: seq<Entry>, b: nat) {
    exists e :: e in w && e.reply.Some? && e.reply.value.id == b
  }

  /** No buffer is freed twice, none is freed while a window owns it, and only stored ones are freed. */
  ghost predicate FreeLogInv(sv: Srv) {
    && NoDup(sv.freed)
    && forall b | b in sv.freed :: b < |sv.execs| && sv.execs[b].phase.Replied? && !Owns(sv.window, b)
  }

  ghost predicate BuffersInv(s: Sys) {
    forall srv | srv in s.servers :: FreeLogInv(s.servers[srv])
  }

  lemma {:induction false} BufsOfMembers(w: seq<Entry>)
    ensures forall b :: b in BufsOf(w) <==> Owns(w, b)
  {
    if w != [] {
      BufsOfMembers(w[1..]);
      assert w == [w[0]] + w[1..];
      forall b ensures b in BufsOf(w) <==> Owns(w, b) {
        if b in BufOf(w[0]) { assert w[0] in w; }
        if Owns(w[1..], b) {
          var e :| e in w[1..] && e.reply.Some? && e.reply.value.id == b;
          assert e in w;
        }
      }
    }
  }

  /** Distinct entries own distinct buffers. */
  ghost predicate OneOwner(w: seq<Entry>) {
    forall i, j | 0 <= i < j < |w| :: w[i].reply.Some? && w[j].reply.Some? ==> w[i].reply.value.id != w[j].reply.value.id
  }

  lemma WindowHasOneOwner(w: seq<Entry>, execs: seq<Exec>)
    requires Sorted(w) && forall e | e in w :: exists i :: EntryOf(e, execs, i)
    ensures OneOwner(w)
  {
    forall i, j | 0 <= i < j < |w| && w[i].reply.Some? && w[j].reply.Some?
      ensures w[i].reply.value.id != w[j].reply.value.id
    {
      assert w[i] in w && w[j] in w;
      var a :| EntryOf(w[i], execs, a);
      var b :| EntryOf(w[j], execs, b);
    }
  }

  lemma {:induction false} BufsOfNoDup(w: seq<Entry>)
    requires OneOwner(w)
    ensures NoDup(BufsOf(w))
  {
    if w != [] {
      var t := w[1..];
      assert forall i | 0 <= i < |t| :: t[i] == w[i + 1];
      BufsOfNoDup(t);
      BufsOfMembers(t);
      forall b | b in BufOf(w[0]) ensures b !in BufsOf(t) {
        forall e | e in t && e.reply.Some? ensures e.reply.value.id != b {
          var k :| 0 <= k < |t| && t[k] == e;
          assert w[k + 1] == e;
        }
      }
      JoinNoDup(BufOf(w[0]), BufsOf(t));
    }
  }

  lemma {:induction false} TrimmedIsPrefix(w: seq<Entry>, xidRep: nat)
    ensures TrimmedBufs(w, xidRep) + BufsOf(Trim(w, xidRep)) == BufsOf(w)
  {
    if w != [] && w[0].xid < xidRep {
      TrimmedIsPrefix(w[1..], xidRep);
      assert BufOf(w[0]) + TrimmedBufs(w[1..], xidRep) + BufsOf(Trim(w[1..], xidRep))
          == BufOf(w[0]) + (TrimmedBufs(w[1..], xidRep) + BufsOf(Trim(w[1..], xidRep)));
    }
  }

  /** What a window owned, a trim either frees, once, or leaves owned. */
  lemma TrimSplitsBuffers(w: seq<Entry>, execs: seq<Exec>, xidRep: nat)
    requires Sorted(w) && forall e | e in w :: exists i :: EntryOf(e, execs, i)
    ensures NoDup(TrimmedBufs(w, xidRep))
    ensures forall b :: Owns(w, b) <==> b in TrimmedBufs(w, xidRep) || Owns(Trim(w, xidRep), b)
    ensures forall b :: !(b in TrimmedBufs(w, xidRep) && Owns(Trim(w, xidRep), b))
  {
    WindowHasOneOwner(w, execs);
    BufsOfNoDup(w);
    TrimmedIsPrefix(w, xidRep);
    BufsOfMembers(w);
    BufsOfMembers(Trim(w, xidRep));
    var xs, ys := TrimmedBufs(w, xidRep), BufsOf(Trim(w, xidRep));
    SplitNoDup(xs, ys);
  }

  lemma JoinNoDup(xs: seq<nat>, ys: seq<nat>)
    requires NoDup(xs) && NoDup(ys) && forall b | b in xs :: b !in ys
    ensures NoDup(xs + ys)
  {
    var all := xs + ys;
    forall i, j | 0 <= i < j < |all| ensures all[i] != all[j] {
      if i < |xs| <= j {
        assert xs[i] in xs && ys[j - |xs|] in ys;
      }
    }
  }

  lemma SplitNoDup(xs: seq<nat>, ys: seq<nat>)
    requires NoDup(xs + ys)
    ensures NoDup(xs) && forall b :: !(b in xs && b in ys)
  {
    var all := xs + ys;
    assert forall i | 0 <= i < |xs| :: all[i] == xs[i];
    assert forall i | 0 <= i < |ys| :: all[|xs| + i] == ys[i];
  }

  lemma OwnsReplied(srv: nat, sv: Srv, headers: map<nat, Req>, reported: set<nat>, b: nat)
    requires SrvInv(srv, sv, headers, reported) && Owns(sv.window, b)
    ensures b < |sv.execs| && sv.execs[b].phase.Replied?
  {
    var e :| e in sv.window && e.reply.Some? && e.reply.value.id == b;
    var i :| EntryOf(e, sv.execs, i);
  }

  /** The window after a check owns what the trim left. */
  lemma CheckKeepsOwners(w: seq<Entry>, xid: nat, xidRep: nat)
    requires Sorted(w)
    ensures forall b :: Owns(Check(w, xid, xidRep).window, b) <==> Owns(Trim(w, xidRep), b)
  {
    CheckMeetsSpec(w, xid, xidRep);
    hide Check, Trim, Sorted;
  }

  lemma OwnedAreReplied(srv: nat, sv: Srv, headers: map<nat, Req>, reported: set<nat>)
    requires SrvInv(srv, sv, headers, reported)
    ensures forall b: nat | Owns(sv.window, b) :: b < |sv.execs| && sv.execs[b].phase.Replied?
  {
    forall b: nat | Owns(sv.window, b) ensures b < |sv.execs| && sv.execs[b].phase.Replied? {
      OwnsReplied(srv, sv, headers, reported, b);
    }
  }

  lemma DispatchFreesSoundly(procs: set<nat>, srv: nat, sv: Srv, req: Req, headers: map<nat, Req>, reported: set<nat>)
    requires SrvInv(srv, sv, headers, reported) && FreeLogInv(sv)
    ensures FreeLogInv(Dispatch(procs, srv, sv, req).0)
    ensures forall b | Owns(sv.window, b) ::
      Owns(Dispatch(procs, srv, sv, req).0.window, b) || b in Dispatch(procs, srv, sv, req).0.freed
    ensures forall b | b in sv.freed :: b in Dispatch(procs, srv, sv, req).0.freed
  {
    var w, r := sv.window, req.xidRep;
    CheckKeepsOwners(w, req.xid, r);
    TrimSplitsBuffers(w, sv.execs, r);
    OwnedAreReplied(srv, sv, headers, reported);
    hide Check, Trim, TrimmedBufs, SrvInv, Owns, Sorted;
    assert forall b | b in TrimmedBufs(w, r) :: Owns(w, b);
    JoinNoDup(sv.freed, TrimmedBufs(w, r));
    hide NoDup;
  }

  lemma NotYetReplied(srv: nat, sv: Srv, i: nat, headers: map<nat, Req>, reported: set<nat>)
    requires SrvInv(srv, sv, headers, reported)
    requires i < |sv.execs| && sv.execs[i].phase.Returned?
    ensures Sorted(sv.window)
    ensures forall e | e in sv.window && e.xid == sv.execs[i].req.xid :: e.reply.None?
  {
    forall e | e in sv.window && e.xid == sv.execs[i].req.xid ensures e.reply.None? {
      var j :| EntryOf(e, sv.execs, j);
    }
  }

  /** Storing a reply adds its buffer to the entry's, and to no other. */
  lemma AddReplyOwners(w: seq<Entry>, x: nat, buf: Buffer)
    requires Sorted(w) && forall e | e in w && e.xid == x :: e.reply.None?
    ensures var w' := AddReply(w, x, buf);
      && (forall b | Owns(w', b) :: Owns(w, b) || b == buf.id)
      && (forall b | Owns(w, b) :: Owns(w', b))
      && (Listed(w, x) ==> Owns(w', buf.id))
  {
    AddReplyKeeps(w, x, buf);
    var w' := AddReply(w, x, buf);
    hide AddReply;
    forall b | Owns(w', b) ensures Owns(w, b) || b == buf.id {
      var e :| e in w' && e.reply.Some? && e.reply.value.id == b;
      var k :| 0 <= k < |w'| && w'[k] == e;
      assert w[k] in w;
    }
    forall b | Owns(w, b) ensures Owns(w', b) {
      var e :| e in w && e.reply.Some? && e.reply.value.id == b;
      var k :| 0 <= k < |w| && w[k] == e;
      assert w'[k] in w';
    }
    if Listed(w, x) {
      var k :| 0 <= k < |w| && w[k].xid == x;
      assert w'[k] in w';
    }
  }

  lemma StoreKeepsLog(srv: nat, sv: Srv, i: nat, headers: map<nat, Req>, reported: set<nat>)
    requires SrvInv(srv, sv, headers, reported) && FreeLogInv(sv)
    requires i < |sv.execs| && sv.execs[i].phase.Returned?
    ensures FreeLogInv(StoreAndSend(sv, i))
    ensures forall b | Owns(sv.window, b) :: Owns(StoreAndSend(sv, i).window, b)
    ensures Listed(sv.window, sv.execs[i].req.xid) ==> Owns(StoreAndSend(sv, i).window, i)
  {
    hide SrvInv, AddReply, Sorted, Owns, Listed;
    NotYetReplied(srv, sv, i, headers, reported);
    AddReplyOwners(sv.window, sv.execs[i].req.xid, Buffer(i, sv.execs[i].phase.rep));
  }

  lemma StepKeepsBuffers(s: Sys, e: Event)
    requires Inv(s) && BuffersInv(s) && Enabled(s, e)
    ensures BuffersInv(Step(s, e))
  {
    hide SrvInv, FreeLogInv, Dispatch, StoreAndSend, ClientInv, CallInv, MsgOk;
    var s' := Step(s, e);
    if e.Receive? {
      assert SrvInv(e.srv, s.servers[e.srv], s.headers, s.reported);
      DispatchFreesSoundly(s.procs, e.srv, s.servers[e.srv], e.req, s.headers, s.reported);
    } else if e.Reply? {
      assert SrvInv(e.srv, s.servers[e.srv], s.headers, s.reported);
      StoreKeepsLog(e.srv, s.servers[e.srv], e.exec, s.headers, s.reported);
    } else if e.Return? {
      ReturnKeepsLog(s.servers[e.srv], e.exec, Returned(Rep(s.servers[e.srv].execs[e.exec].req.xid, e.ret, e.body)));
    } else if e.Boot? {
      EmptyLog();
    }
  }

  lemma ReturnKeepsLog(sv: Srv, i: nat, phase: Phase)
    requires FreeLogInv(sv) && i < |sv.execs| && sv.execs[i].phase.Running?
    ensures FreeLogInv(SetPhase(sv, i, phase))
  {
  }

  lemma EmptyLog()
    ensures FreeLogInv(Srv([], [], []))
  {
  }

  /** In every run: no buffer is freed twice, and none is freed while an entry still owns it. */
  lemma {:induction false} NeverFreedTwice(ss: seq<Sys>, es: seq<Event>, i: nat)
    requires Run(ss, es) && i < |ss|
    ensures BuffersInv(ss[i])
  {
    hide Inv, Step, Enabled, BuffersInv;
    if i == 0 {
      assert BuffersInv(ss[0]) by { InitBuffers(ss[0]); }
    } else {
      NeverFreedTwice(ss, es, i - 1);
      RunInv(ss, es, i - 1);
      StepKeepsBuffers(ss[i - 1], es[i - 1]);
      assert ss[i] == Step(ss[i - 1], es[i - 1]);
    }
  }

  lemma InitBuffers(s: Sys)
    requires Init(s)
    ensures BuffersInv(s)
  {
  }

  // ---- Quiet runs ----

  /** No timeout, no cancel; `srv` is the only instance; the first call is the only bind. */
  predicate QuietEvent(s: Sys, e: Event, srv: nat) {
    match e
    case Start(proc, args) => proc == BIND ==> s.client.nextXid == 1
    case CancelAll => false
    case Finish(xid) => xid in s.client.calls && s.client.calls[xid].done
    case Boot(n) => n == srv
    case _ => true
  }

  ghost predicate QuietRun(ss: seq<Sys>, es: seq<Event>, srv: nat) {
    Run(ss, es) && forall i | 0 <= i < |es| :: QuietEvent(ss[i], es[i], srv)
  }

  ghost predicate RepliedTo(sv: Srv, xid: nat) {
    exists i | 0 <= i < |sv.execs| :: sv.execs[i].req.xid == xid && sv.execs[i].phase.Replied?
  }

  /** Everything below the front of the window has been executed. */
  ghost predicate NothingSkipped(sv: Srv) {
    sv.window != [] ==> forall y | 1 <= y < sv.window[0].xid :: Executed(sv, y)
  }

  ghost predicate NothingLeaked(sv: Srv) {
    forall i | 0 <= i < |sv.execs| && sv.execs[i].phase.Replied? :: Owns(sv.window, i) || i in sv.freed
  }

  ghost predicate QuietSrv(s: Sys, sv: Srv) {
    && (forall x | x in s.reported :: RepliedTo(sv, x))
    && (forall m | m in s.reps :: RepliedTo(sv, m.rep.xid))
    && NothingSkipped(sv)
    && NothingLeaked(sv)
  }

  ghost predicate QuietClient(s: Sys, srv: nat) {
    && (forall x | x in s.headers && x >= 2 :: s.headers[x].xidRep >= 1 && s.headers[x].proc != BIND)
    && (forall x | x in s.headers :: s.headers[x].srvNonce == 0 || s.headers[x].srvNonce == srv)
    && (s.client.srvNonce == 0 || s.client.srvNonce == srv)
    && (s.client.bindDone ==> 1 in s.reported)
    && (forall x | x in s.client.calls && s.client.calls[x].done :: x in s.reported)
    && s.servers.Keys <= {srv}
  }

  ghost predicate QuietInv(s: Sys, srv: nat) {
    && QuietClient(s, srv)
    && (srv !in s.servers ==> s.reps == {} && s.reported == {})
    && (srv in s.servers ==> QuietSrv(s, s.servers[srv]))
  }

  /** A trimmed entry of a quiet run already has its reply: its xid has been reported, so its
      single execution has been answered. */
  lemma TrimmedIsAnswered(srv: nat, sv: Srv, headers: map<nat, Req>, reported: set<nat>, req: Req, c: nat, e: Entry)
    requires SrvInv(srv, sv, headers, reported) && HeaderOk(req, req.xid, c, reported)
    requires forall x | x in reported :: RepliedTo(sv, x)
    requires e in sv.window && e.xid < req.xidRep
    ensures e.reply.Some?
  {
    var i: nat :| EntryOf(e, sv.execs, i);
    assert ExecOk(srv, sv.execs[i], headers);
    assert e.xid in reported;
    var j :| 0 <= j < |sv.execs| && sv.execs[j].req.xid == e.xid && sv.execs[j].phase.Replied?;
  }

  lemma Answered(srv: nat, sv: Srv, headers: map<nat, Req>, reported: set<nat>, i: nat)
    requires SrvInv(srv, sv, headers, reported)
    requires i < |sv.execs| && RepliedTo(sv, sv.execs[i].req.xid)
    ensures sv.execs[i].phase.Replied?
  {
    var j :| 0 <= j < |sv.execs| && sv.execs[j].req.xid == sv.execs[i].req.xid && sv.execs[j].phase.Replied?;
  }

  /** The largest processed watermark keeps its own entry, so the front after a trim is still
      preceded by executed xids only. */
  lemma TrimSkipsNothing(srv: nat, sv: Srv, headers: map<nat, Req>, reported: set<nat>, req: Req, c: nat)
    requires SrvInv(srv, sv, headers, reported) && HeaderOk(req, req.xid, c, reported)
    requires forall x | x in reported :: RepliedTo(sv, x)
    requires NothingSkipped(sv)
    ensures var kept := Trim(sv.window, req.xidRep);
      && (kept == [] ==> req.xidRep == 0 && sv.execs == [])
      && (kept != [] ==> forall y | 1 <= y < kept[0].xid :: Executed(sv, y))
  {
    hide HandlerResult, EntryOf;
    var w, r := sv.window, req.xidRep;
    var kept := Trim(w, r);
    TrimKeeps(w, r);
    if r >= 1 {
      assert r in reported && RepliedTo(sv, r);
      var i :| 0 <= i < |sv.execs| && sv.execs[i].req.xid == r && sv.execs[i].phase.Replied?;
      assert Remembered(w, r, reported);
      if Listed(w, r) {
        var k :| 0 <= k < |w| && w[k].xid == r;
        assert w[k] in kept;
        FrontIsLeast(kept, w[k]);
        forall y | 1 <= y < kept[0].xid ensures Executed(sv, y) {
          assert RepliedTo(sv, y);
        }
      } else {
        NothingToTrim(w, r);
      }
    } else {
      NothingToTrim(w, r);
      assert sv.execs != [] ==> Remembered(w, sv.execs[0].req.xid, reported);
    }
  }

  lemma FrontIsLeast(w: seq<Entry>, e: Entry)
    requires Sorted(w) && e in w
    ensures w[0].xid <= e.xid
  {
    var i :| 0 <= i < |w| && w[i] == e;
  }

  /** No needless refusal, for one arrival: a request that has not been executed is new. */
  lemma FreshIsNew(srv: nat, sv: Srv, headers: map<nat, Req>, reported: set<nat>, req: Req, c: nat)
    requires SrvInv(srv, sv, headers, reported) && HeaderOk(req, req.xid, c, reported) && req.xid >= 1
    requires forall x | x in reported :: RepliedTo(sv, x)
    requires NothingSkipped(sv)
    requires !Executed(sv, req.xid)
    ensures Check(sv.window, req.xid, req.xidRep).verdict.New?
  {
    hide HandlerResult;
    TrimSkipsNothing(srv, sv, headers, reported, req, c);
    CheckMeetsSpec(sv.window, req.xid, req.xidRep);
    TrimKeeps(sv.window, req.xidRep);
    var kept := Trim(sv.window, req.xidRep);
    forall k | 0 <= k < |kept| ensures kept[k].xid != req.xid {
      assert kept[k] in sv.window;
      var i :| EntryOf(kept[k], sv.execs, i);
    }
  }

  lemma QuietVerdict(srv: nat, sv: Srv, headers: map<nat, Req>, reported: set<nat>, req: Req, c: nat)
    requires SrvInv(srv, sv, headers, reported) && HeaderOk(req, req.xid, c, reported) && req.xid >= 1
    requires forall x | x in reported :: RepliedTo(sv, x)
    requires NothingSkipped(sv)
    ensures var v := Check(sv.window, req.xid, req.xidRep).verdict;
      v.Done? || v.Forgotten? ==> RepliedTo(sv, req.xid)
  {
    hide HandlerResult, Check, Trim;
    var ck := Check(sv.window, req.xid, req.xidRep);
    CheckMeetsSpec(sv.window, req.xid, req.xidRep);
    if ck.verdict.Done? {
      TrimKeeps(sv.window, req.xidRep);
      var e := Entry(req.xid, Some(ck.verdict.buf));
      assert e in sv.window;
      var i: nat :| EntryOf(e, sv.execs, i);
    } else if ck.verdict.Forgotten? {
      if !Executed(sv, req.xid) {
        FreshIsNew(srv, sv, headers, reported, req, c);
      } else {
        var i :| 0 <= i < |sv.execs| && sv.execs[i].req.xid == req.xid;
        RememberedAfter(sv.window, req, c, reported, req.xid);
        assert ck.window == Trim(sv.window, req.xidRep) by { ForgottenKeepsTrim(sv.window, req.xid, req.xidRep); }
      }
    }
  }

  lemma ForgottenKeepsTrim(w: seq<Entry>, xid: nat, xidRep: nat)
    requires Check(w, xid, xidRep).verdict.Forgotten?
    ensures Check(w, xid, xidRep).window == Trim(w, xidRep)
  {
  }

  lemma CheckWindow(w: seq<Entry>, xid: nat, xidRep: nat)
    ensures var ck := Check(w, xid, xidRep); var kept := Trim(w, xidRep);
      ck.window == if ck.verdict.New? then InsertNew(kept, xid) else kept
  {
  }

  lemma SkipsNothingAfter(srv: nat, sv: Srv, headers: map<nat, Req>, reported: set<nat>, req: Req, c: nat, freed: seq<nat>)
    requires SrvInv(srv, sv, headers, reported) && HeaderOk(req, req.xid, c, reported) && req.xid >= 1
    requires forall x | x in reported :: RepliedTo(sv, x)
    requires NothingSkipped(sv)
    requires req.xid >= 2 ==> req.xidRep >= 1
    ensures var ck := Check(sv.window, req.xid, req.xidRep);
      NothingSkipped(Srv(ck.window, Logged(sv.execs, req, ck.verdict), freed))
  {
    hide HandlerResult, Trim, Check, InsertNew;
    var ck := Check(sv.window, req.xid, req.xidRep);
    var kept := Trim(sv.window, req.xidRep);
    TrimSkipsNothing(srv, sv, headers, reported, req, c);
    TrimKeeps(sv.window, req.xidRep);
    CheckMeetsSpec(sv.window, req.xid, req.xidRep);
    CheckWindow(sv.window, req.xid, req.xidRep);
    if ck.verdict.New? {
      InsertKeeps(kept, req.xid);
    }
    var sv' := Srv(ck.window, Logged(sv.execs, req, ck.verdict), freed);
    ExecutedSame(sv, sv');
    forall y | 1 <= y < ck.window[0].xid ensures Executed(sv', y) {
      assert kept != [] && y < kept[0].xid;
      assert Executed(sv, y);
    }
  }

  lemma RepliedToForever(sv: Srv, sv': Srv, x: nat)
    requires Evolves(sv, sv') && RepliedTo(sv, x)
    ensures RepliedTo(sv', x)
  {
    var i :| 0 <= i < |sv.execs| && sv.execs[i].req.xid == x && sv.execs[i].phase.Replied?;
    assert sv'.execs[i] == sv.execs[i];
  }

  lemma DispatchSkipsNothing(procs: set<nat>, srv: nat, sv: Srv, req: Req, headers: map<nat, Req>, reported: set<nat>, c: nat)
    requires SrvInv(srv, sv, headers, reported) && HeaderOk(req, req.xid, c, reported) && req.xid >= 1
    requires forall x | x in reported :: RepliedTo(sv, x)
    requires NothingSkipped(sv)
    requires req.xid >= 2 ==> req.xidRep >= 1
    ensures NothingSkipped(Dispatch(procs, srv, sv, req).0)
  {
    hide SrvInv, HeaderOk, RepliedTo, NothingSkipped, Check, TrimmedBufs;
    var sv' := Dispatch(procs, srv, sv, req).0;
    SkipsNothingAfter(srv, sv, headers, reported, req, c, sv'.freed);
  }

  lemma DispatchAnswers(procs: set<nat>, srv: nat, sv: Srv, req: Req, headers: map<nat, Req>, reported: set<nat>, c: nat)
    requires SrvInv(srv, sv, headers, reported) && HeaderOk(req, req.xid, c, reported) && req.xid >= 1
    requires forall x | x in reported :: RepliedTo(sv, x)
    requires NothingSkipped(sv)
    requires req.srvNonce == 0 || req.srvNonce == srv
    ensures forall m | m in Dispatch(procs, srv, sv, req).1 :: m.rep.xid == req.xid ==> RepliedTo(sv, req.xid)
  {
    hide SrvInv, HeaderOk, RepliedTo, NothingSkipped, Check, TrimmedBufs;
    QuietVerdict(srv, sv, headers, reported, req, c);
  }

  lemma DispatchKeepsQuiet(s: Sys, srv: nat, req: Req)
    requires Inv(s) && QuietInv(s, srv) && BuffersInv(s) && Enabled(s, Receive(srv, req))
    ensures var s' := Step(s, Receive(srv, req)); QuietSrv(s', s'.servers[srv])
  {
    hide Represents, MsgOk, SrvInv, RepliedTo, NothingSkipped, Owns, FreeLogInv, Dispatch, Evolves;
    var sv := s.servers[srv];
    var (sv', out) := Dispatch(s.procs, srv, sv, req);
    assert SrvInv(srv, sv, s.headers, s.reported) && FreeLogInv(sv);
    DispatchKeeps(s.procs, srv, sv, req, s.headers, s.reported, s.client.cltNonce);
    DispatchSkipsNothing(s.procs, srv, sv, req, s.headers, s.reported, s.client.cltNonce);
    DispatchAnswers(s.procs, srv, sv, req, s.headers, s.reported, s.client.cltNonce);
    DispatchLeaksNothing(s.procs, srv, sv, req, s.headers, s.reported);
    forall x | RepliedTo(sv, x) ensures RepliedTo(sv', x) {
      RepliedToForever(sv, sv', x);
    }
  }

  lemma DispatchLeaksNothing(procs: set<nat>, srv: nat, sv: Srv, req: Req, headers: map<nat, Req>, reported: set<nat>)
    requires SrvInv(srv, sv, headers, reported) && FreeLogInv(sv)
    requires NothingLeaked(sv)
    ensures NothingLeaked(Dispatch(procs, srv, sv, req).0)
  {
    hide SrvInv, FreeLogInv, Owns, Check, TrimmedBufs;
    DispatchFreesSoundly(procs, srv, sv, req, headers, reported);
  }

  lemma StoreKeepsQuiet(srv: nat, sv: Srv, i: nat, headers: map<nat, Req>, reported: set<nat>)
    requires SrvInv(srv, sv, headers, reported) && FreeLogInv(sv)
    requires i < |sv.execs| && sv.execs[i].phase.Returned?
    requires forall x | x in reported :: RepliedTo(sv, x)
    requires NothingSkipped(sv) && NothingLeaked(sv)
    ensures NothingSkipped(StoreAndSend(sv, i)) && NothingLeaked(StoreAndSend(sv, i))
  {
    hide HandlerResult, EntryOf, FreeLogInv;
    var sv' := StoreAndSend(sv, i);
    var x := sv.execs[i].req.xid;
    StoreKeepsLog(srv, sv, i, headers, reported);
    if x in reported {
      Answered(srv, sv, headers, reported, i);
    }
    assert Remembered(sv.window, x, reported);
    assert Listed(sv.window, x);
    AddReplyKeeps(sv.window, x, Buffer(i, sv.execs[i].phase.rep));
    hide SrvInv, Owns, RepliedTo, AddReply, Executed;
    ExecutedSame(sv, sv');
  }

  lemma ReplyKeepsQuiet(s: Sys, srv: nat, i: nat)
    requires Inv(s) && QuietInv(s, srv) && BuffersInv(s) && Enabled(s, Reply(srv, i))
    ensures var s' := Step(s, Reply(srv, i)); QuietSrv(s', s'.servers[srv])
  {
    hide Represents, MsgOk, FreeLogInv, SrvInv, NothingSkipped, NothingLeaked, RepliedTo, Evolves;
    var sv := s.servers[srv];
    var sv' := StoreAndSend(sv, i);
    assert SrvInv(srv, sv, s.headers, s.reported) && FreeLogInv(sv);
    ReplyKeeps(srv, sv, i, s.headers, s.reported);
    StoreKeepsQuiet(srv, sv, i, s.headers, s.reported);
    forall y | RepliedTo(sv, y) ensures RepliedTo(sv', y) {
      RepliedToForever(sv, sv', y);
    }
    NowReplied(srv, sv, i, s.headers, s.reported);
  }

  lemma NowReplied(srv: nat, sv: Srv, i: nat, headers: map<nat, Req>, reported: set<nat>)
    requires SrvInv(srv, sv, headers, reported)
    requires i < |sv.execs| && sv.execs[i].phase.Returned?
    ensures RepliedTo(StoreAndSend(sv, i), sv.execs[i].phase.rep.xid)
  {
    var sv' := StoreAndSend(sv, i);
    assert ExecOk(srv, sv.execs[i], headers);
    assert sv'.execs[i].req.xid == sv.execs[i].req.xid && sv'.execs[i].phase.Replied?;
  }

  lemma ExecutedSame(sv: Srv, sv': Srv)
    requires |sv'.execs| >= |sv.execs|
    requires forall i | 0 <= i < |sv.execs| :: sv'.execs[i].req == sv.execs[i].req
    ensures forall x | Executed(sv, x) :: Executed(sv', x)
  {
    forall x | Executed(sv, x) ensures Executed(sv', x) {
      var i :| 0 <= i < |sv.execs| && sv.execs[i].req.xid == x;
      assert sv'.execs[i].req.xid == x;
    }
  }

  /** The instance after the handler of execution i has returned. */
  lemma ReturnKeepsQuiet(s: Sys, srv: nat, i: nat, rep: Rep, sv': Srv)
    requires srv in s.servers && QuietSrv(s, s.servers[srv])
    requires i < |s.servers[srv].execs| && s.servers[srv].execs[i].phase.Running?
    requires sv' == SetPhase(s.servers[srv], i, Returned(rep))
    ensures QuietSrv(s, sv')
  {
    hide RepliedTo, Executed, Owns;
    var sv := s.servers[srv];
    forall x | RepliedTo(sv, x) ensures RepliedTo(sv', x) {
      SetPhaseKeepsReplies(sv, i, Returned(rep), x);
    }
    ExecutedSame(sv, sv');
  }

  lemma SetPhaseKeepsReplies(sv: Srv, i: nat, phase: Phase, x: nat)
    requires i < |sv.execs| && !sv.execs[i].phase.Replied? && RepliedTo(sv, x)
    ensures RepliedTo(SetPhase(sv, i, phase), x)
  {
    var j :| 0 <= j < |sv.execs| && sv.execs[j].req.xid == x && sv.execs[j].phase.Replied?;
    assert SetPhase(sv, i, phase).execs[j] == sv.execs[j];
  }

  lemma ReturnStepKeepsQuiet(s: Sys, e: Event, srv: nat)
    requires QuietInv(s, srv) && Enabled(s, e) && e.Return? && e.srv == srv
    ensures QuietInv(Step(s, e), srv)
  {
    hide RepliedTo, NothingSkipped, NothingLeaked, HandlerResult, SetPhase;
    var sv := s.servers[srv];
    var rep := Rep(sv.execs[e.exec].req.xid, e.ret, e.body);
    ReturnKeepsQuiet(s, srv, e.exec, rep, SetPhase(sv, e.exec, Returned(rep)));
  }

  lemma StartKeepsQuiet(s: Sys, e: Event, srv: nat)
    requires Inv(s) && QuietInv(s, srv) && Enabled(s, e) && QuietEvent(s, e, srv) && e.Start?
    ensures QuietInv(Step(s, e), srv)
  {
    hide NetInv, CallInv, RepliedTo, NothingSkipped, NothingLeaked;
    if s.client.bindDone {
      assert s.client.repWindow[0] >= 1;
    }
  }

  lemma EndBindKeepsQuiet(s: Sys, xid: nat, srv: nat)
    requires Inv(s) && QuietInv(s, srv) && Enabled(s, EndBind(xid))
    ensures QuietInv(Step(s, EndBind(xid)), srv)
  {
    hide SrvInv, MsgOk, RepliedTo, NothingSkipped, NothingLeaked, Represents, HeaderOk, BindResult, Doomed;
    BindGivesNonce(s, xid);
    assert xid in s.headers && s.headers[xid].proc == BIND && xid !in s.client.calls;
  }

  lemma ClientStepKeepsQuiet(s: Sys, e: Event, srv: nat)
    requires Inv(s) && QuietInv(s, srv) && Enabled(s, e) && QuietEvent(s, e, srv)
    requires e.Transmit? || e.Deliver? || e.Finish? || e.Boot?
    ensures QuietInv(Step(s, e), srv)
  {
    hide SrvInv, MsgOk, Represents, HeaderOk, Report, RepliedTo, CallInv, Addressed, HandlerResult, BindResult;
    var s' := Step(s, e);
    if e.Finish? {
      assert s'.reported == s.reported;
    }
  }

  lemma StepKeepsQuiet(s: Sys, e: Event, srv: nat)
    requires Inv(s) && QuietInv(s, srv) && BuffersInv(s) && Enabled(s, e) && QuietEvent(s, e, srv)
    ensures QuietInv(Step(s, e), srv)
  {
    hide Inv, QuietSrv, BuffersInv;
    match e
    case Receive(n, req) => DispatchKeepsQuiet(s, srv, req);
    case Return(n, i, ret, body) => ReturnStepKeepsQuiet(s, e, srv);
    case Reply(n, i) => ReplyKeepsQuiet(s, srv, i);
    case Start(proc, args) => StartKeepsQuiet(s, e, srv);
    case EndBind(xid) => EndBindKeepsQuiet(s, xid, srv);
    case _ => ClientStepKeepsQuiet(s, e, srv);
  }

  lemma {:induction false} QuietRunInv(ss: seq<Sys>, es: seq<Event>, srv: nat, i: nat)
    requires QuietRun(ss, es, srv) && i < |ss|
    ensures QuietInv(ss[i], srv)
  {
    hide Inv, Step, Enabled, QuietEvent, QuietInv, BuffersInv;
    if i == 0 {
      InitQuiet(ss[0], srv);
    } else {
      QuietRunInv(ss, es, srv, i - 1);
      RunInv(ss, es, i - 1);
      NeverFreedTwice(ss, es, i - 1);
      StepKeepsQuiet(ss[i - 1], es[i - 1], srv);
      assert ss[i] == Step(ss[i - 1], es[i - 1]);
    }
  }

  lemma InitQuiet(s: Sys, srv: nat)
    requires Init(s)
    ensures QuietInv(s, srv)
  {
  }

  // ---- Theorems ----

  /** No needless refusal: in a quiet run every request that its instance has not executed yet is
      classified NEW on arrival, however concurrent requests were reordered. */
  lemma NoNeedlessRefusal(ss: seq<Sys>, es: seq<Event>, srv: nat, i: nat)
    requires QuietRun(ss, es, srv) && i < |es| && es[i].Receive?
    requires es[i].req.proc in ss[i].procs
    requires !Executed(ss[i].servers[es[i].srv], es[i].req.xid)
    ensures TakesNew(ss[i], es[i], srv, es[i].req.xid)
  {
    hide Represents, MsgOk, Check, HandlerResult, EntryOf, Remembered;
    var s := ss[i];
    RunInv(ss, es, i);
    QuietRunInv(ss, es, srv, i);
    assert Enabled(s, es[i]);
    assert SrvInv(srv, s.servers[srv], s.headers, s.reported);
    hide SrvInv;
    FreshIsNew(srv, s.servers[srv], s.headers, s.reported, es[i].req, s.client.cltNonce);
  }

  /** The first arrival of every request is classified NEW. */
  lemma FirstArrivalIsNew(ss: seq<Sys>, es: seq<Event>, srv: nat, i: nat)
    requires QuietRun(ss, es, srv) && i < |es| && es[i].Receive?
    requires es[i].req.proc in ss[i].procs
    requires forall j | 0 <= j < i && es[j].Receive? :: es[j].req != es[i].req
    ensures TakesNew(ss[i], es[i], srv, es[i].req.xid)
  {
    hide Inv, Run, Step, Check, Executed;
    var x, n := es[i].req.xid, es[i].srv;
    RunEnabled(ss, es, i);
    RunInv(ss, es, i);
    if Executed(ss[i].servers[n], x) {
      var j := ExecutedTookNew(ss, es, i, n, x);
      RunInv(ss, es, j);
      RunGrows(ss, es, j, i);
      NewWasNotExecuted(ss[j], es[j], n, x);
      SentIsHeader(ss[i], es[i].req);
      assert false;
    }
    NoNeedlessRefusal(ss, es, srv, i);
  }

  lemma RunEnabled(ss: seq<Sys>, es: seq<Event>, i: nat)
    requires Run(ss, es) && i < |es|
    ensures |ss| == |es| + 1 && Enabled(ss[i], es[i])
  {
  }

  lemma SentIsHeader(s: Sys, req: Req)
    requires Inv(s) && req in s.reqs
    ensures req.xid in s.headers && s.headers[req.xid] == req
  {
    hide ClientInv, SrvInv, MsgOk;
  }

  /** In a quiet run every entry that a request trims already has its reply. */
  lemma TrimmedEntriesHaveReplies(ss: seq<Sys>, es: seq<Event>, srv: nat, i: nat, e: Entry)
    requires QuietRun(ss, es, srv) && i < |es| && es[i].Receive?
    requires e in ss[i].servers[es[i].srv].window && e.xid < es[i].req.xidRep
    ensures e.reply.Some?
  {
    hide Represents, MsgOk, Check, HandlerResult, EntryOf, Remembered;
    var s := ss[i];
    RunInv(ss, es, i);
    QuietRunInv(ss, es, srv, i);
    assert Enabled(s, es[i]);
    assert SrvInv(srv, s.servers[srv], s.headers, s.reported);
    hide SrvInv;
    TrimmedIsAnswered(srv, s.servers[srv], s.headers, s.reported, es[i].req, s.client.cltNonce, e);
  }

  /** Reply-buffer conservation: freeing what is left in the window, as `free_reply_window` does,
      completes a log in which no buffer occurs twice; in a quiet run the log then holds the buffer
      of every stored reply. */
  lemma BuffersFreedExactlyOnce(ss: seq<Sys>, es: seq<Event>, srv: nat, i: nat)
    requires Run(ss, es) && i < |ss| && srv in ss[i].servers
    ensures var sv := ss[i].servers[srv]; var log := sv.freed + BufsOf(sv.window);
      && NoDup(log)
      && (forall b | b in log :: b < |sv.execs| && sv.execs[b].phase.Replied?)
      && (QuietRun(ss, es, srv) ==> forall b | 0 <= b < |sv.execs| && sv.execs[b].phase.Replied? :: b in log)
  {
    hide Represents, MsgOk, HandlerResult, EntryOf, Remembered;
    var s := ss[i];
    var sv := s.servers[srv];
    RunInv(ss, es, i);
    NeverFreedTwice(ss, es, i);
    assert SrvInv(srv, sv, s.headers, s.reported) && FreeLogInv(sv);
    BufsOfMembers(sv.window);
    WindowHasOneOwner(sv.window, sv.execs);
    BufsOfNoDup(sv.window);
    JoinNoDup(sv.freed, BufsOf(sv.window));
    forall b | b in BufsOf(sv.window) ensures b < |sv.execs| && sv.execs[b].phase.Replied? {
      OwnsReplied(srv, sv, s.headers, s.reported, b);
    }
    if QuietRun(ss, es, srv) {
      QuietRunInv(ss, es, srv, i);
    }
  }

  /** Exactly when `add_reply` loses its buffer, in any run: the entry is gone iff the front of the
      window has moved past the xid, and then the client has given the call up. */
  lemma ReplyLostIff(ss: seq<Sys>, es: seq<Event>, srv: nat, i: nat)
    requires Run(ss, es) && i < |es| && es[i].Reply? && es[i].srv == srv
    ensures var sv := ss[i].servers[srv]; var x := sv.execs[es[i].exec].req.xid;
      && sv.window != []
      && (Owns(Step(ss[i], es[i]).servers[srv].window, es[i].exec) <==> !(x < sv.window[0].xid))
      && (x < sv.window[0].xid ==> x in ss[i].reported)
  {
    hide Represents, MsgOk, HandlerResult;
    var s, k := ss[i], es[i].exec;
    RunInv(ss, es, i);
    NeverFreedTwice(ss, es, i);
    assert Enabled(s, es[i]);
    var sv := s.servers[srv];
    var x := sv.execs[k].req.xid;
    assert SrvInv(srv, sv, s.headers, s.reported) && FreeLogInv(sv);
    assert Remembered(sv.window, x, s.reported);
    StoreKeepsLog(srv, sv, k, s.headers, s.reported);
    ReplyKeeps(srv, sv, k, s.headers, s.reported);
    var sv' := StoreAndSend(sv, k);
    AddReplyKeeps(sv.window, x, Buffer(k, sv.execs[k].phase.rep));
    forall e | e in sv'.window && e.reply.Some? && x < sv.window[0].xid ensures e.reply.value.id != k {
      var j: nat :| EntryOf(e, sv'.execs, j);
      FrontIsLeast(sv'.window, e);
    }
    if Listed(sv.window, x) {
      var n :| 0 <= n < |sv.window| && sv.window[n].xid == x;
    }
  }
}
