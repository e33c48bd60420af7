/** The lock service end to end: many clients, each an RPC system of its own over an adversarial
    network, call `acquire` and `release` at one lock server; handlers run inside its monitor.
    Threads call `release` only for a lock they hold, and at most once per acquire. */
module LockSystem {
  import opened RpcTypes
  import opened RpcClient
  import opened ReplyWindow
  import opened RpcSystem
  import Codec
  import LS = LockServer

  const ACQUIRE: nat := 0x7001
  const RELEASE: nat := 0x7002
  const OK: int := 0

  /** A thread of client c whose `acquire` call `xid` returned OK for `lid` and which has not called
      `release` since. */
  datatype Hold = Hold(client: nat, xid: nat, lid: nat)

  /** Where the one token of a lock is: free at the server, granted to acquire call `xid`, or given
      back by release call `xid`, which the server has not run yet. */
  datatype Token = AtServer | Out(client: nat, xid: nat) | Releasing(client: nat, xid: nat)

  datatype World = World(
    srv: nat,
    clients: map<nat, Sys>,
    monitor: LS.Monitor,
    holds: set<Hold>,
    tokens: map<nat, Token>,
    crashed: bool)

  datatype Event =
    | Rpc(c: nat, e: RpcSystem.Event)
    | Acquire(c: nat, lid: nat)
    | Release(h: Hold)
    | RunAcquire(c: nat, exec: nat)
    | ResumeAcquire(c: nat, exec: nat)
    | RunRelease(c: nat, exec: nat, woken: set<LS.Tid>)
    | Spurious(t: LS.Tid)

  // ---- Arguments ----

  /** `m << cl->id() << lid` */
  function LockArgs(clt: nat, lid: nat): Bytes
    requires clt < Codec.U32 && lid < Codec.U64
  {
    Codec.EncScalar(Codec.TU32, clt) + Codec.EncScalar(Codec.TU64, lid)
  }

  /** `args >> a1 >> a2` into an int and an unsigned long long, then `okdone`. */
  function ReadLockArgs(args: Bytes): Option<(int, nat)> {
    var (u, c1) := Codec.GetScalar(Codec.TI32, args, Codec.Cur(0, true));
    var (lid, c2) := Codec.GetScalar(Codec.TU64, args, c1);
    if c2.ok && c2.ind == |args| then Some((Codec.FromUnsigned(Codec.TI32, u), lid)) else None
  }

  lemma LockArgsRead(clt: nat, lid: nat)
    requires clt < Codec.U32 / 2 && lid < Codec.U64
    ensures ReadLockArgs(LockArgs(clt, lid)) == Some((clt, lid))
  {
    hide Codec.GetU32, Codec.EncU32;
    var x, y := Codec.EncScalar(Codec.TI32, clt), Codec.EncScalar(Codec.TU64, lid);
    var b := LockArgs(clt, lid);
    assert b == x + y && b[0..|b|] == b;
    Codec.AtSplit(b, 0, x, y);
    Codec.ScalarRoundTrip(Codec.TI32, b, 0, clt);
    Codec.ScalarRoundTrip(Codec.TU64, b, 4, lid);
  }

  /** The lock a request is about. */
  function LidOf(req: Req): nat {
    match ReadLockArgs(req.args) case Some(p) => p.1 case None => 0
  }

  // ---- Steps ----

  /** All events of the RPC library, except that acquire and release calls are made, and their
      handlers run, by the events below. */
  predicate Generic(w: World, c: nat, e: RpcSystem.Event) {
    match e
    case Start(proc, args) => proc != ACQUIRE && proc != RELEASE
    case Boot(n) => n == w.srv
    case Return(n, i, ret, body) =>
      c in w.clients && n in w.clients[c].servers && i < |w.clients[c].servers[n].execs| &&
      var proc := w.clients[c].servers[n].execs[i].req.proc; proc != ACQUIRE && proc != RELEASE
    case _ => true
  }

  /** Execution i of client c is a handler for `proc` that has not returned. */
  predicate RunningExec(w: World, c: nat, i: nat, proc: nat) {
    && c in w.clients && w.srv in w.clients[c].servers && i < |w.clients[c].servers[w.srv].execs|
    && w.clients[c].servers[w.srv].execs[i].phase.Running?
    && w.clients[c].servers[w.srv].execs[i].req.proc == proc
  }

  function ExecReq(w: World, c: nat, i: nat): Req
    requires c in w.clients && w.srv in w.clients[c].servers && i < |w.clients[c].servers[w.srv].execs|
  {
    w.clients[c].servers[w.srv].execs[i].req
  }

  ghost predicate Enabled(w: World, e: Event) {
    !w.crashed &&
    match e
    case Rpc(c, re) => c in w.clients && RpcSystem.Enabled(w.clients[c], re) && Generic(w, c, re)
    case Acquire(c, lid) =>
      c in w.clients && c < Codec.U32 && lid < Codec.U64
      && RpcSystem.Enabled(w.clients[c], Start(ACQUIRE, LockArgs(c, lid)))
    case Release(h) =>
      h in w.holds && h.client in w.clients && h.client < Codec.U32 && h.lid < Codec.U64
      && RpcSystem.Enabled(w.clients[h.client], Start(RELEASE, LockArgs(h.client, h.lid)))
    case RunAcquire(c, i) => RunningExec(w, c, i, ACQUIRE) && LS.Tid(c, i) !in w.monitor.sleepers
    case ResumeAcquire(c, i) =>
      RunningExec(w, c, i, ACQUIRE) && LS.Enabled(w.monitor, LS.Resume(LS.Tid(c, i)))
    case RunRelease(c, i, woken) =>
      RunningExec(w, c, i, RELEASE) && LS.SignalWakes(w.monitor, LidOf(ExecReq(w, c, i)), woken)
    case Spurious(t) => LS.Enabled(w.monitor, LS.Spurious(t))
  }

  /** The handler of execution (c, i) returns `ret` with an encoded int, or without a result. */
  function HandlerReturns(w: World, c: nat, i: nat, ret: int): World
    requires c in w.clients && w.srv in w.clients[c].servers && i < |w.clients[c].servers[w.srv].execs|
  {
    var sv := w.clients[c].servers[w.srv];
    var rep := Rep(sv.execs[i].req.xid, ret, if ret == OK then Codec.EncU32(0) else []);
    w.(clients := w.clients[c := w.clients[c].(servers := w.clients[c].servers[w.srv := SetPhase(sv, i, Returned(rep))])])
  }

  /** What `lock_client::acquire` asserts before it returns to its caller. */
  predicate AcquireReturnsOk(s: Sys, xid: nat)
    requires |s.client.repWindow| > 0
  {
    && xid in s.client.calls && s.client.calls[xid].req.proc == ACQUIRE
    && FinishCall(s.client, xid).1.ret == OK
    && BindResult(FinishCall(s.client, xid).1.body).Some?
  }

  function Step(w: World, e: Event): World
    requires Enabled(w, e)
  {
    match e
    case Rpc(c, re) =>
      var s := w.clients[c];
      w.(clients := w.clients[c := RpcSystem.Step(s, re)],
         holds :=
           if re.Finish? && AcquireReturnsOk(s, re.xid)
           then w.holds + {Hold(c, re.xid, LidOf(s.client.calls[re.xid].req))}
           else w.holds)
    case Acquire(c, lid) =>
      w.(clients := w.clients[c := RpcSystem.Step(w.clients[c], Start(ACQUIRE, LockArgs(c, lid)))])
    case Release(h) =>
      var s := w.clients[h.client];
      w.(clients := w.clients[h.client := RpcSystem.Step(s, Start(RELEASE, LockArgs(h.client, h.lid)))],
         holds := w.holds - {h},
         tokens := w.tokens[h.lid := Releasing(h.client, s.client.nextXid)])
    case RunAcquire(c, i) =>
      (match ReadLockArgs(ExecReq(w, c, i).args)
       case None => HandlerReturns(w, c, i, UNMARSHAL_ARGS_FAILURE)
       case Some((clt, lid)) =>
         var (m, granted) := LS.GrantEnter(w.monitor, LS.Tid(c, i), clt, lid);
         AfterGrant(w, c, i, m, granted))
    case ResumeAcquire(c, i) =>
      var (m, granted) := LS.GrantResume(w.monitor, LS.Tid(c, i));
      AfterGrant(w, c, i, m, granted)
    case RunRelease(c, i, woken) =>
      (match ReadLockArgs(ExecReq(w, c, i).args)
       case None => HandlerReturns(w, c, i, UNMARSHAL_ARGS_FAILURE)
       case Some((clt, lid)) =>
         if lid !in w.monitor.locks then w.(crashed := true)
         else
           var m := LS.Release(w.monitor, clt, lid, woken);
           HandlerReturns(w, c, i, OK).(monitor := m,
             tokens := if m.locks[lid] == LS.FREE then w.tokens[lid := AtServer] else w.tokens))
    case Spurious(t) =>
      w.(monitor := LS.Step(w.monitor, LS.Spurious(t)))
  }

  /** The handler thread either waits, or returns OK with the lock set for its caller. */
  function AfterGrant(w: World, c: nat, i: nat, m: LS.Monitor, granted: bool): World
    requires RunningExec(w, c, i, ACQUIRE)
  {
    if granted then
      HandlerReturns(w, c, i, OK).(monitor := m,
        tokens := w.tokens[LidOf(ExecReq(w, c, i)) := Out(c, ExecReq(w, c, i).xid)])
    else w.(monitor := m)
  }

  ghost predicate Init(w: World) {
    && 0 < w.srv < Codec.U32
    && w == World(w.srv, w.clients, LS.Monitor(map[], map[]), {}, map[], false)
    && forall c | c in w.clients ::
         && 0 < c < Codec.U32 / 2
         && RpcSystem.Init(w.clients[c]) && w.clients[c].client.cltNonce == c
  }

  ghost predicate Run(ws: seq<World>, es: seq<Event>) {
    && |ws| == |es| + 1
    && Init(ws[0])
    && forall i | 0 <= i < |es| :: Enabled(ws[i], es[i]) && ws[i + 1] == Step(ws[i], es[i])
  }

  // ---- Invariant ----

  /** The handler of call y has returned at the server. */
  ghost predicate HandlerDone(s: Sys, srv: nat, y: nat) {
    srv in s.servers &&
    exists i | 0 <= i < |s.servers[srv].execs| ::
      s.servers[srv].execs[i].req.xid == y && !s.servers[srv].execs[i].phase.Running?
  }

  /** The acquire handler of execution i returned OK. */
  ghost predicate Granted(sv: Srv, i: nat) {
    && i < |sv.execs| && sv.execs[i].req.proc == ACQUIRE
    && !sv.execs[i].phase.Running? && sv.execs[i].phase.rep.ret == OK
  }

  ghost predicate HasToken(tokens: map<nat, Token>, lid: nat, tok: Token) {
    lid in tokens && tokens[lid] == tok
  }

  /** What client c's calls say about tokens: a granted acquire whose call is still open has the
      token; a release that has not run has it. */
  ghost predicate Claims(srv: nat, c: nat, s: Sys, tokens: map<nat, Token>) {
    && (forall x | x in s.headers && (s.headers[x].proc == ACQUIRE || s.headers[x].proc == RELEASE) ::
         ReadLockArgs(s.headers[x].args) == Some((c, LidOf(s.headers[x]))))
    && (srv in s.servers ==> forall i | 0 <= i < |s.servers[srv].execs| && Granted(s.servers[srv], i) ::
         s.servers[srv].execs[i].req.xid in s.client.calls ==>
           HasToken(tokens, LidOf(s.servers[srv].execs[i].req), Out(c, s.servers[srv].execs[i].req.xid)))
    && (forall y | y in s.headers && s.headers[y].proc == RELEASE && !HandlerDone(s, srv, y) ::
         HasToken(tokens, LidOf(s.headers[y]), Releasing(c, y)))
  }

  /** The other direction: a token that is away names a call that accounts for it. */
  ghost predicate Accounted(srv: nat, s: Sys, lid: nat, tok: Token) {
    match tok
    case AtServer => true
    case Out(c, x) =>
      srv in s.servers && exists i | 0 <= i < |s.servers[srv].execs| ::
        Granted(s.servers[srv], i) && s.servers[srv].execs[i].req.xid == x && LidOf(s.servers[srv].execs[i].req) == lid
    case Releasing(c, y) =>
      y in s.headers && s.headers[y].proc == RELEASE && LidOf(s.headers[y]) == lid && !HandlerDone(s, srv, y)
  }

  ghost predicate ClientOk(srv: nat, c: nat, s: Sys, tokens: map<nat, Token>) {
    && 0 < c < Codec.U32 / 2
    && s.client.cltNonce == c
    && Inv(s)
    && s.servers.Keys <= {srv}
    && Claims(srv, c, s, tokens)
  }

  predicate TokenAgrees(l: LS.LockRec, tok: Token) {
    match tok
    case AtServer => !l.locked
    case Out(c, x) => l == LS.LockRec(true, c)
    case Releasing(c, y) => l == LS.LockRec(true, c)
  }

  ghost predicate HoldOk(w: World, h: Hold) {
    && HasToken(w.tokens, h.lid, Out(h.client, h.xid))
    && h.client in w.clients && h.xid in w.clients[h.client].headers && h.xid !in w.clients[h.client].client.calls
    && h.lid < Codec.U64
  }

  ghost predicate SleeperOk(w: World, t: LS.Tid, z: LS.Sleeper) {
    && RunningExec(w, t.client, t.exec, ACQUIRE)
    && z.clt == t.client && z.lid == LidOf(ExecReq(w, t.client, t.exec))
  }

  /** The server's lock table and the tokens agree, and every token that is away is accounted for. */
  ghost predicate TokensOk(w: World) {
    && w.tokens.Keys == w.monitor.locks.Keys
    && (forall lid | lid in w.tokens :: TokenAgrees(w.monitor.locks[lid], w.tokens[lid]))
    && (forall lid | lid in w.tokens && !w.tokens[lid].AtServer? ::
         w.tokens[lid].client in w.clients && Accounted(w.srv, w.clients[w.tokens[lid].client], lid, w.tokens[lid]))
  }

  ghost predicate SleepersOk(w: World) {
    forall t | t in w.monitor.sleepers :: SleeperOk(w, t, w.monitor.sleepers[t])
  }

  ghost predicate WorldInv(w: World) {
    && !w.crashed
    && 0 < w.srv < Codec.U32
    && (forall c | c in w.clients :: ClientOk(w.srv, c, w.clients[c], w.tokens))
    && TokensOk(w)
    && (forall h | h in w.holds :: HoldOk(w, h))
    && SleepersOk(w)
    && LS.NoLostWakeup(w.monitor)
  }

  // ---- What the RPC layer guarantees each client ----

  lemma ExecIsHeader(s: Sys, srv: nat, i: nat)
    requires Inv(s) && srv in s.servers && i < |s.servers[srv].execs|
    ensures s.servers[srv].execs[i].req.xid in s.headers
    ensures s.headers[s.servers[srv].execs[i].req.xid] == s.servers[srv].execs[i].req
  {
    hide ClientInv, CallInv, MsgOk, EntryOf, Remembered, HandlerResult;
    assert SrvInv(srv, s.servers[srv], s.headers, s.reported);
    assert ExecOk(srv, s.servers[srv].execs[i], s.headers);
  }

  lemma ExecIsUnique(s: Sys, srv: nat, i: nat, j: nat)
    requires Inv(s) && srv in s.servers && i < |s.servers[srv].execs| && j < |s.servers[srv].execs|
    requires s.servers[srv].execs[i].req.xid == s.servers[srv].execs[j].req.xid
    ensures i == j
  {
    hide ClientInv, CallInv, MsgOk, EntryOf, Remembered, HandlerResult, ExecOk;
    assert SrvInv(srv, s.servers[srv], s.headers, s.reported);
  }

  lemma CallIsHeader(s: Sys, x: nat)
    requires Inv(s) && x in s.client.calls
    ensures |s.client.repWindow| > 0 && x in s.headers && s.client.calls[x].req == s.headers[x]
  {
    hide NetInv, CallInv, HeaderOk;
  }

  lemma NextXidIsNew(s: Sys)
    requires Inv(s)
    ensures |s.client.repWindow| > 0 && s.client.nextXid !in s.headers
  {
    hide NetInv, CallInv, HeaderOk;
  }

  /** An acquire call about to return OK was granted by the server: reply integrity. */
  lemma OkMeansGranted(s: Sys, srv: nat, x: nat) returns (i: nat)
    requires Inv(s) && s.servers.Keys <= {srv} && |s.client.repWindow| > 0 && AcquireReturnsOk(s, x)
    ensures srv in s.servers && Granted(s.servers[srv], i)
    ensures x in s.headers && s.servers[srv].execs[i].req == s.headers[x] && s.headers[x].xid == x
  {
    hide ClientInv, Doomed, HandlerResult, EntryOf, Remembered;
    CallIsHeader(s, x);
    var m := s.accepted[x];
    assert MsgOk(m.rep, s.servers[m.from], s.reported);
    i :| FromExec(m.rep, s.servers[m.from], i);
    assert SrvInv(srv, s.servers[srv], s.headers, s.reported);
    assert ExecOk(srv, s.servers[srv].execs[i], s.headers);
  }

  /** s' differs from s in nothing that claims speak about, except that calls may have ended. */
  ghost predicate SameClaims(srv: nat, s: Sys, s': Sys) {
    && (forall x | x in s.headers :: x in s'.headers && s'.headers[x] == s.headers[x])
    && (forall x | x in s'.headers && x !in s.headers :: s'.headers[x].proc != ACQUIRE && s'.headers[x].proc != RELEASE)
    && (forall x | x in s.headers && x in s'.client.calls :: x in s.client.calls)
    && (srv in s.servers ==> srv in s'.servers && |s.servers[srv].execs| <= |s'.servers[srv].execs|)
    && (srv in s.servers ==> forall i | 0 <= i < |s.servers[srv].execs| ::
          SameExec(s.servers[srv].execs[i], s'.servers[srv].execs[i]))
    && (srv in s'.servers ==> forall i | 0 <= i < |s'.servers[srv].execs| ::
          (srv !in s.servers || i >= |s.servers[srv].execs|) ==> s'.servers[srv].execs[i].phase.Running?)
  }

  /** The handler of a lock call has returned in both states or in neither, with the same result. */
  ghost predicate SameExec(a: Exec, b: Exec) {
    && a.req == b.req
    && (a.req.proc == ACQUIRE || a.req.proc == RELEASE ==>
          (a.phase.Running? <==> b.phase.Running?) && (!a.phase.Running? ==> a.phase.rep == b.phase.rep))
  }

  lemma HandlerDoneSame(srv: nat, s: Sys, s': Sys, y: nat)
    requires Inv(s) && SameClaims(srv, s, s') && y in s.headers && s.headers[y].proc == RELEASE
    ensures HandlerDone(s, srv, y) <==> HandlerDone(s', srv, y)
  {
    hide Inv;
    if srv in s.servers {
      var a, b := s.servers[srv].execs, s'.servers[srv].execs;
      forall i | 0 <= i < |a| && a[i].req.xid == y ensures a[i].req.proc == RELEASE {
        ExecIsHeader(s, srv, i);
      }
      if i :| 0 <= i < |a| && a[i].req.xid == y && !a[i].phase.Running? {
        assert SameExec(a[i], b[i]);
      }
      if i :| 0 <= i < |b| && b[i].req.xid == y && !b[i].phase.Running? {
        assert SameExec(a[i], b[i]);
      }
    }
  }

  lemma SameClaimsTransfer(srv: nat, c: nat, s: Sys, s': Sys, tokens: map<nat, Token>)
    requires Inv(s) && Claims(srv, c, s, tokens) && SameClaims(srv, s, s')
    ensures Claims(srv, c, s', tokens)
    ensures forall lid, tok | Accounted(srv, s, lid, tok) :: Accounted(srv, s', lid, tok)
  {
    hide Inv, ReadLockArgs, HasToken;
    forall y | y in s.headers && s.headers[y].proc == RELEASE ensures HandlerDone(s, srv, y) <==> HandlerDone(s', srv, y) {
      HandlerDoneSame(srv, s, s', y);
    }
    hide HandlerDone;
    if srv in s'.servers {
      forall i | 0 <= i < |s'.servers[srv].execs| && Granted(s'.servers[srv], i)
        ensures s'.servers[srv].execs[i].req.xid in s'.client.calls ==>
          HasToken(tokens, LidOf(s'.servers[srv].execs[i].req), Out(c, s'.servers[srv].execs[i].req.xid))
      {
        assert SameExec(s.servers[srv].execs[i], s'.servers[srv].execs[i]);
        assert Granted(s.servers[srv], i);
        ExecIsHeader(s, srv, i);
      }
    }
    forall lid, tok | Accounted(srv, s, lid, tok) ensures Accounted(srv, s', lid, tok) {
      if tok.Out? {
        var i :| 0 <= i < |s.servers[srv].execs| && Granted(s.servers[srv], i)
          && s.servers[srv].execs[i].req.xid == tok.xid && LidOf(s.servers[srv].execs[i].req) == lid;
        assert SameExec(s.servers[srv].execs[i], s'.servers[srv].execs[i]);
        assert Granted(s'.servers[srv], i);
      }
    }
  }

  lemma SameClaimsRefl(srv: nat, s: Sys)
    ensures SameClaims(srv, s, s)
  {
  }

  lemma ClientEventSameClaims(srv: nat, s: Sys, e: RpcSystem.Event)
    requires Inv(s) && RpcSystem.Enabled(s, e)
    requires e.Start? || e.Transmit? || e.Deliver? || e.CancelAll? || e.Finish? || e.EndBind?
    requires e.Start? ==> e.proc != ACQUIRE && e.proc != RELEASE
    ensures SameClaims(srv, s, RpcSystem.Step(s, e))
  {
    hide Inv, BindResult, SameExec;
    NextXidIsNew(s);
    var s' := RpcSystem.Step(s, e);
    assert s'.servers == s.servers;
    SameClaimsRefl(srv, s);
    if e.Deliver? {
      assert s'.client.calls.Keys == s.client.calls.Keys;
    }
  }

  lemma DispatchExecs(procs: set<nat>, srv: nat, sv: Srv, req: Req)
    ensures var sv' := Dispatch(procs, srv, sv, req).0;
      sv'.execs == sv.execs || sv'.execs == sv.execs + [Exec(req, Running)]
  {
    hide Check, TrimmedBufs;
  }

  lemma ServerEventSameClaims(w: World, c: nat, e: RpcSystem.Event)
    requires c in w.clients && w.clients[c].servers.Keys <= {w.srv}
    requires RpcSystem.Enabled(w.clients[c], e) && Generic(w, c, e)
    requires e.Boot? || e.Receive? || e.Return? || e.Reply?
    ensures SameClaims(w.srv, w.clients[c], RpcSystem.Step(w.clients[c], e))
    ensures RpcSystem.Step(w.clients[c], e).servers.Keys <= {w.srv}
  {
    hide Dispatch, AddReply, HandlerResult;
    if e.Receive? {
      DispatchExecs(w.clients[c].procs, e.srv, w.clients[c].servers[e.srv], e.req);
    }
  }

  /** No event of the RPC library, other than the runs of lock handlers and the start of lock calls,
      touches what claims speak about. */
  lemma GenericSameClaims(w: World, c: nat, e: RpcSystem.Event)
    requires c in w.clients && Inv(w.clients[c]) && w.clients[c].servers.Keys <= {w.srv}
    requires RpcSystem.Enabled(w.clients[c], e) && Generic(w, c, e)
    ensures SameClaims(w.srv, w.clients[c], RpcSystem.Step(w.clients[c], e))
    ensures RpcSystem.Step(w.clients[c], e).servers.Keys <= {w.srv}
  {
    if e.Boot? || e.Receive? || e.Return? || e.Reply? {
      ServerEventSameClaims(w, c, e);
    } else {
      ClientEventSameClaims(w.srv, w.clients[c], e);
      hide SameClaims;
      assert RpcSystem.Step(w.clients[c], e).servers == w.clients[c].servers;
    }
  }

  lemma NonceKept(s: Sys, e: RpcSystem.Event)
    requires RpcSystem.Enabled(s, e)
    ensures RpcSystem.Step(s, e).client.cltNonce == s.client.cltNonce
  {
    hide Dispatch, StoreAndSend, SetPhase, BindResult, HandlerResult;
  }

  // ---- Generic events ----

  lemma RpcStepClient(w: World, c: nat, e: RpcSystem.Event)
    requires WorldInv(w) && Enabled(w, Rpc(c, e))
    ensures var s' := RpcSystem.Step(w.clients[c], e);
      && ClientOk(w.srv, c, s', w.tokens)
      && SameClaims(w.srv, w.clients[c], s')
      && forall lid, tok | Accounted(w.srv, w.clients[c], lid, tok) :: Accounted(w.srv, s', lid, tok)
  {
    hide Inv, Claims, SameClaims, RpcSystem.Step, RpcSystem.Enabled, Accounted, HoldOk, SleeperOk, TokenAgrees;
    var s := w.clients[c];
    assert ClientOk(w.srv, c, s, w.tokens);
    StepKeepsInv(s, e);
    NonceKept(s, e);
    GenericSameClaims(w, c, e);
    SameClaimsTransfer(w.srv, c, s, RpcSystem.Step(s, e), w.tokens);
  }

  lemma RpcStepHolds(w: World, c: nat, e: RpcSystem.Event, h: Hold)
    requires WorldInv(w) && Enabled(w, Rpc(c, e)) && h in Step(w, Rpc(c, e)).holds
    ensures HoldOk(Step(w, Rpc(c, e)), h)
  {
    hide Inv, RpcSystem.Enabled, SleeperOk, TokenAgrees, Accounted, ReadLockArgs, BindResult, GotPdu, Dispatch, StoreAndSend, SetPhase;
    var s := w.clients[c];
    RpcStepClient(w, c, e);
    assert ClientOk(w.srv, c, s, w.tokens);
    if h in w.holds {
      assert HoldOk(w, h);
    } else {
      NextXidIsNew(s);
      CallIsHeader(s, e.xid);
      var i := OkMeansGranted(s, w.srv, e.xid);
      LidRange(s.headers[e.xid]);
    }
  }

  lemma LidRead(req: Req, clt: int, lid: nat)
    requires ReadLockArgs(req.args) == Some((clt, lid))
    ensures LidOf(req) == lid
  {
  }

  lemma LidRange(req: Req)
    ensures LidOf(req) < Codec.U64
  {
  }

  lemma RpcShape(w: World, c: nat, e: RpcSystem.Event)
    requires Enabled(w, Rpc(c, e))
    ensures var w' := Step(w, Rpc(c, e));
      && c in w.clients && RpcSystem.Enabled(w.clients[c], e)
      && w'.clients == w.clients[c := RpcSystem.Step(w.clients[c], e)]
      && w'.srv == w.srv && w'.monitor == w.monitor && w'.tokens == w.tokens && w'.crashed == w.crashed
  {
    hide RpcSystem.Step, RpcSystem.Enabled, Generic, AcquireReturnsOk, LidOf;
  }

  lemma SleepersTransfer(w: World, w': World, c: nat, s': Sys)
    requires SleepersOk(w) && c in w.clients && SameClaims(w.srv, w.clients[c], s')
    requires w'.clients == w.clients[c := s'] && w'.srv == w.srv && w'.monitor == w.monitor
    ensures SleepersOk(w')
  {
    hide LidOf;
    forall t | t in w.monitor.sleepers ensures SleeperOk(w', t, w.monitor.sleepers[t]) {
      assert SleeperOk(w, t, w.monitor.sleepers[t]);
      if t.client == c {
        assert SameExec(w.clients[c].servers[w.srv].execs[t.exec], s'.servers[w.srv].execs[t.exec]);
      }
    }
  }

  lemma TokensTransfer(w: World, w': World, c: nat, s': Sys)
    requires TokensOk(w) && c in w.clients
    requires forall lid, tok | Accounted(w.srv, w.clients[c], lid, tok) :: Accounted(w.srv, s', lid, tok)
    requires w'.clients == w.clients[c := s'] && w'.srv == w.srv && w'.monitor == w.monitor && w'.tokens == w.tokens
    ensures TokensOk(w')
  {
    hide Accounted, TokenAgrees;
  }

  lemma RpcStepKeeps(w: World, c: nat, e: RpcSystem.Event)
    requires WorldInv(w) && Enabled(w, Rpc(c, e))
    ensures WorldInv(Step(w, Rpc(c, e)))
  {
    hide Step, Enabled, HoldOk, ClientOk, TokensOk, SleepersOk, SameClaims, Accounted, RpcSystem.Step, RpcSystem.Enabled, LS.NoLostWakeup;
    RpcShape(w, c, e);
    var w' := Step(w, Rpc(c, e));
    RpcStepClient(w, c, e);
    TokensTransfer(w, w', c, w'.clients[c]);
    SleepersTransfer(w, w', c, w'.clients[c]);
    forall h | h in w'.holds ensures HoldOk(w', h) {
      RpcStepHolds(w, c, e, h);
    }
  }

  // ---- Moving one token ----

  /** A client that does not have the token of `lid` does not care where it goes. */
  lemma OthersDoNotCare(srv: nat, c: nat, s: Sys, tokens: map<nat, Token>, lid: nat, tok: Token)
    requires ClientOk(srv, c, s, tokens)
    requires lid in tokens ==> tokens[lid].AtServer? || tokens[lid].client != c
    ensures ClientOk(srv, c, s, tokens[lid := tok])
  {
    hide Inv, ReadLockArgs, HandlerDone, LidOf, Granted;
  }

  lemma StartStep(s: Sys, proc: nat, args: Bytes)
    requires Inv(s) && RpcSystem.Enabled(s, Start(proc, args))
    ensures var s' := RpcSystem.Step(s, Start(proc, args));
      && Inv(s') && s'.client.cltNonce == s.client.cltNonce && s'.servers == s.servers
      && s.client.nextXid !in s.headers
      && s'.headers.Keys == s.headers.Keys + {s.client.nextXid}
      && (forall x | x in s.headers :: s'.headers[x] == s.headers[x])
      && s'.headers[s.client.nextXid].proc == proc && s'.headers[s.client.nextXid].args == args
      && s'.client.calls.Keys == s.client.calls.Keys + {s.client.nextXid}
  {
    NextXidIsNew(s);
    StepKeepsInv(s, Start(proc, args));
    hide Inv;
  }

  lemma NewCallNotExecuted(s: Sys, srv: nat, x: nat)
    requires Inv(s) && x !in s.headers
    ensures !HandlerDone(s, srv, x)
    ensures srv in s.servers ==> forall i | 0 <= i < |s.servers[srv].execs| :: s.servers[srv].execs[i].req.xid != x
  {
    hide Inv;
    if srv in s.servers {
      forall i | 0 <= i < |s.servers[srv].execs| ensures s.servers[srv].execs[i].req.xid != x {
        ExecIsHeader(s, srv, i);
      }
    }
  }

  /** s' is s with one more call x of procedure `proc` for lock `lid`. */
  ghost predicate Starts(c: nat, s: Sys, s': Sys, x: nat, proc: nat, lid: nat) {
    && s'.servers == s.servers
    && x !in s.headers
    && s'.headers.Keys == s.headers.Keys + {x}
    && (forall y | y in s.headers :: s'.headers[y] == s.headers[y])
    && s'.headers[x].proc == proc && ReadLockArgs(s'.headers[x].args) == Some((c, lid))
    && s'.client.calls.Keys == s.client.calls.Keys + {x}
  }

  lemma StartAccounts(srv: nat, c: nat, s: Sys, s': Sys, x: nat, proc: nat, lid: nat)
    requires Starts(c, s, s', x, proc, lid)
    ensures forall l, tok | Accounted(srv, s, l, tok) :: Accounted(srv, s', l, tok)
  {
    hide ReadLockArgs, LidOf, Granted;
    forall y ensures HandlerDone(s, srv, y) <==> HandlerDone(s', srv, y) {
    }
  }

  lemma AcquireStartClaims(srv: nat, c: nat, s: Sys, s': Sys, x: nat, lid: nat, tokens: map<nat, Token>)
    requires Inv(s) && Claims(srv, c, s, tokens) && Starts(c, s, s', x, ACQUIRE, lid)
    ensures Claims(srv, c, s', tokens)
  {
    hide Inv, ReadLockArgs, Granted, HasToken;
    NewCallNotExecuted(s, srv, x);
  }

  lemma ReleaseStartClaims(srv: nat, c: nat, s: Sys, s': Sys, y: nat, lid: nat, x: nat, tokens: map<nat, Token>)
    requires Inv(s) && Claims(srv, c, s, tokens) && Starts(c, s, s', y, RELEASE, lid)
    requires HasToken(tokens, lid, Out(c, x)) && x !in s.client.calls
    ensures Claims(srv, c, s', tokens[lid := Releasing(c, y)])
  {
    hide Inv, ReadLockArgs, Granted, HandlerDone, LidOf;
    NewCallNotExecuted(s, srv, y);
    LidRead(s'.headers[y], c, lid);
    var tokens' := tokens[lid := Releasing(c, y)];
    if srv in s.servers {
      forall i | 0 <= i < |s.servers[srv].execs| && Granted(s.servers[srv], i)
        ensures s.servers[srv].execs[i].req.xid in s'.client.calls ==>
          HasToken(tokens', LidOf(s.servers[srv].execs[i].req), Out(c, s.servers[srv].execs[i].req.xid))
      {
        assert s.servers[srv].execs[i].req.xid != y;
      }
    }
    forall z | z in s'.headers && s'.headers[z].proc == RELEASE && !HandlerDone(s', srv, z)
      ensures HasToken(tokens', LidOf(s'.headers[z]), Releasing(c, z))
    {
      SameServersSameDone(srv, s, s', z);
    }
  }

  lemma SameServersSameDone(srv: nat, s: Sys, s': Sys, z: nat)
    requires s'.servers == s.servers
    ensures HandlerDone(s', srv, z) <==> HandlerDone(s, srv, z)
  {
  }

  /** Starting an acquire claims nothing. */
  lemma AcquireStartClient(srv: nat, c: nat, s: Sys, lid: nat, tokens: map<nat, Token>)
    requires ClientOk(srv, c, s, tokens) && lid < Codec.U64
    requires RpcSystem.Enabled(s, Start(ACQUIRE, LockArgs(c, lid)))
    ensures var s' := RpcSystem.Step(s, Start(ACQUIRE, LockArgs(c, lid)));
      && ClientOk(srv, c, s', tokens)
      && Starts(c, s, s', s.client.nextXid, ACQUIRE, lid)
  {
    StartStep(s, ACQUIRE, LockArgs(c, lid));
    LockArgsRead(c, lid);
    hide Inv, RpcSystem.Step, RpcSystem.Enabled, LockArgs, ReadLockArgs, Claims;
    AcquireStartClaims(srv, c, s, RpcSystem.Step(s, Start(ACQUIRE, LockArgs(c, lid))), s.client.nextXid, lid, tokens);
  }

  /** Starting a release moves the token from the finished acquire to the release. */
  lemma ReleaseStartClient(srv: nat, c: nat, s: Sys, lid: nat, x: nat, tokens: map<nat, Token>)
    requires ClientOk(srv, c, s, tokens) && lid < Codec.U64
    requires RpcSystem.Enabled(s, Start(RELEASE, LockArgs(c, lid)))
    requires HasToken(tokens, lid, Out(c, x)) && x !in s.client.calls
    ensures var s' := RpcSystem.Step(s, Start(RELEASE, LockArgs(c, lid))); var y := s.client.nextXid;
      && ClientOk(srv, c, s', tokens[lid := Releasing(c, y)])
      && Starts(c, s, s', y, RELEASE, lid)
      && !HandlerDone(s', srv, y)
  {
    var s' := RpcSystem.Step(s, Start(RELEASE, LockArgs(c, lid)));
    StartStep(s, RELEASE, LockArgs(c, lid));
    LockArgsRead(c, lid);
    NewCallNotExecuted(s, srv, s.client.nextXid);
    hide Inv, RpcSystem.Step, RpcSystem.Enabled, LockArgs, ReadLockArgs, Claims;
    ReleaseStartClaims(srv, c, s, s', s.client.nextXid, lid, x, tokens);
  }

  lemma AcquireKeeps(w: World, c: nat, lid: nat)
    requires WorldInv(w) && Enabled(w, Acquire(c, lid))
    ensures WorldInv(Step(w, Acquire(c, lid)))
  {
    hide Inv, RpcSystem.Step, RpcSystem.Enabled, Claims, ReadLockArgs, LockArgs, LS.NoLostWakeup, LidOf;
    var s := w.clients[c];
    var w' := Step(w, Acquire(c, lid));
    assert ClientOk(w.srv, c, s, w.tokens);
    AcquireStartClient(w.srv, c, s, lid, w.tokens);
    StartAccounts(w.srv, c, s, w'.clients[c], s.client.nextXid, ACQUIRE, lid);
    assert TokensOk(w') by { hide ClientOk, HoldOk, SleepersOk, Accounted, TokenAgrees; }
    assert SleepersOk(w') by { hide ClientOk, HoldOk, TokensOk; StartSleepers(w, w', c, w'.clients[c]); }
    hide ClientOk, TokensOk, SleepersOk, HasToken;
  }

  lemma StartSleepers(w: World, w': World, c: nat, s': Sys)
    requires SleepersOk(w) && c in w.clients && s'.servers == w.clients[c].servers
    requires w'.clients == w.clients[c := s'] && w'.srv == w.srv && w'.monitor == w.monitor
    ensures SleepersOk(w')
  {
    hide LidOf;
    forall t | t in w.monitor.sleepers ensures SleeperOk(w', t, w.monitor.sleepers[t]) {
      assert SleeperOk(w, t, w.monitor.sleepers[t]);
    }
  }

  lemma ReleaseKeeps(w: World, h: Hold)
    requires WorldInv(w) && Enabled(w, Release(h))
    ensures WorldInv(Step(w, Release(h)))
  {
    hide Inv, RpcSystem.Step, RpcSystem.Enabled, Claims, ReadLockArgs, LockArgs, LS.NoLostWakeup, LidOf;
    var c, lid := h.client, h.lid;
    var s := w.clients[c];
    var w' := Step(w, Release(h));
    assert ClientOk(w.srv, c, s, w.tokens) && HoldOk(w, h);
    ReleaseStartClient(w.srv, c, s, lid, h.xid, w.tokens);
    StartAccounts(w.srv, c, s, w'.clients[c], s.client.nextXid, RELEASE, lid);
    forall c' | c' in w.clients && c' != c ensures ClientOk(w.srv, c', w.clients[c'], w'.tokens) {
      OthersDoNotCare(w.srv, c', w.clients[c'], w.tokens, lid, Releasing(c, s.client.nextXid));
    }
    LidRead(w'.clients[c].headers[s.client.nextXid], c, lid);
    assert TokensOk(w') by { hide ClientOk, SleepersOk; }
    assert SleepersOk(w') by { hide ClientOk, HoldOk, TokensOk; StartSleepers(w, w', c, w'.clients[c]); }
    forall h' | h' in w'.holds ensures HoldOk(w', h') {
      assert HoldOk(w, h');
    }
    hide ClientOk, TokensOk, SleepersOk, HoldOk;
  }

  // ---- Handlers return ----

  /** s' is s after the handler of execution i returned `ret`. */
  ghost predicate Returns(srv: nat, s: Sys, s': Sys, i: nat, ret: int) {
    && srv in s.servers && srv in s'.servers
    && i < |s.servers[srv].execs| && s.servers[srv].execs[i].phase.Running?
    && s'.client == s.client && s'.headers == s.headers
    && |s'.servers[srv].execs| == |s.servers[srv].execs|
    && (forall j | 0 <= j < |s.servers[srv].execs| :: s'.servers[srv].execs[j].req == s.servers[srv].execs[j].req)
    && (forall j | 0 <= j < |s.servers[srv].execs| && j != i :: s'.servers[srv].execs[j] == s.servers[srv].execs[j])
    && !s'.servers[srv].execs[i].phase.Running? && s'.servers[srv].execs[i].phase.rep.ret == ret
  }

  lemma ReturnStep(srv: nat, s: Sys, i: nat, ret: int, body: Bytes)
    requires Inv(s) && srv in s.servers && i < |s.servers[srv].execs|
    requires s.servers[srv].execs[i].phase.Running? && s.servers[srv].execs[i].req.proc != BIND
    requires ret == OK || (ret == UNMARSHAL_ARGS_FAILURE && body == [])
    ensures RpcSystem.Enabled(s, Return(srv, i, ret, body))
    ensures var s' := RpcSystem.Step(s, Return(srv, i, ret, body));
      Inv(s') && Returns(srv, s, s', i, ret) && s'.servers.Keys == s.servers.Keys
  {
    hide Inv, BindResult;
    NextXidIsNew(s);
    StepKeepsInv(s, Return(srv, i, ret, body));
  }

  lemma DoneAfterReturn(srv: nat, s: Sys, s': Sys, i: nat, ret: int, y: nat)
    requires Returns(srv, s, s', i, ret)
    ensures HandlerDone(s', srv, y) <==> HandlerDone(s, srv, y) || y == s.servers[srv].execs[i].req.xid
  {
    var a, b := s.servers[srv].execs, s'.servers[srv].execs;
    if j :| 0 <= j < |a| && a[j].req.xid == y && !a[j].phase.Running? {
      assert b[j].req.xid == y && !b[j].phase.Running?;
    }
    if y == a[i].req.xid {
      assert b[i].req.xid == y && !b[i].phase.Running?;
    }
    if HandlerDone(s', srv, y) {
      var j :| 0 <= j < |b| && b[j].req.xid == y && !b[j].phase.Running?;
      assert j != i ==> a[j] == b[j];
    }
  }

  lemma GrantedAfterReturn(srv: nat, s: Sys, s': Sys, i: nat, ret: int, j: nat)
    requires Returns(srv, s, s', i, ret)
    ensures Granted(s'.servers[srv], j) <==>
      Granted(s.servers[srv], j) || (j == i && ret == OK && s.servers[srv].execs[i].req.proc == ACQUIRE)
  {
  }

  lemma ReturnAccounts(srv: nat, s: Sys, s': Sys, i: nat, ret: int, lid: nat, tok: Token)
    requires Returns(srv, s, s', i, ret) && Accounted(srv, s, lid, tok)
    requires tok.Releasing? ==> tok.xid != s.servers[srv].execs[i].req.xid
    ensures Accounted(srv, s', lid, tok)
  {
    hide LidOf, Granted, HandlerDone;
    match tok
    case AtServer =>
    case Out(c, x) =>
      var j :| 0 <= j < |s.servers[srv].execs| && Granted(s.servers[srv], j)
        && s.servers[srv].execs[j].req.xid == x && LidOf(s.servers[srv].execs[j].req) == lid;
      GrantedAfterReturn(srv, s, s', i, ret, j);
      assert Granted(s'.servers[srv], j);
    case Releasing(c, y) =>
      DoneAfterReturn(srv, s, s', i, ret, y);
  }

  /** A grant hands the token of a free lock to the acquire call. */
  lemma GrantClaims(srv: nat, c: nat, s: Sys, s': Sys, i: nat, tokens: map<nat, Token>)
    requires Inv(s) && Claims(srv, c, s, tokens) && Returns(srv, s, s', i, OK)
    requires s.servers[srv].execs[i].req.proc == ACQUIRE
    requires LidOf(s.servers[srv].execs[i].req) in tokens ==> tokens[LidOf(s.servers[srv].execs[i].req)].AtServer?
    ensures var req := s.servers[srv].execs[i].req;
      && Claims(srv, c, s', tokens[LidOf(req) := Out(c, req.xid)])
      && Accounted(srv, s', LidOf(req), Out(c, req.xid))
  {
    hide Inv, ReadLockArgs, LidOf, Granted, HandlerDone;
    var req := s.servers[srv].execs[i].req;
    var tokens' := tokens[LidOf(req) := Out(c, req.xid)];
    forall j | 0 <= j < |s'.servers[srv].execs| && Granted(s'.servers[srv], j)
      ensures s'.servers[srv].execs[j].req.xid in s'.client.calls ==>
        HasToken(tokens', LidOf(s'.servers[srv].execs[j].req), Out(c, s'.servers[srv].execs[j].req.xid))
    {
      GrantedAfterReturn(srv, s, s', i, OK, j);
    }
    forall y | y in s'.headers && s'.headers[y].proc == RELEASE && !HandlerDone(s', srv, y)
      ensures HasToken(tokens', LidOf(s'.headers[y]), Releasing(c, y))
    {
      DoneAfterReturn(srv, s, s', i, OK, y);
    }
    GrantedAfterReturn(srv, s, s', i, OK, i);
    assert Granted(s'.servers[srv], i) && s'.servers[srv].execs[i].req.xid == req.xid;
  }

  /** A release that runs is the one its lock's token names. */
  lemma RunningReleaseHasToken(srv: nat, c: nat, s: Sys, i: nat, tokens: map<nat, Token>)
    requires Inv(s) && Claims(srv, c, s, tokens)
    requires srv in s.servers && i < |s.servers[srv].execs|
    requires s.servers[srv].execs[i].phase.Running? && s.servers[srv].execs[i].req.proc == RELEASE
    ensures var req := s.servers[srv].execs[i].req;
      HasToken(tokens, LidOf(req), Releasing(c, req.xid)) && ReadLockArgs(req.args) == Some((c, LidOf(req)))
  {
    hide Inv, ReadLockArgs, LidOf, Granted, HasToken;
    var y := s.servers[srv].execs[i].req.xid;
    ExecIsHeader(s, srv, i);
    forall j | 0 <= j < |s.servers[srv].execs| && s.servers[srv].execs[j].req.xid == y
      ensures s.servers[srv].execs[j].phase.Running?
    {
      ExecIsUnique(s, srv, i, j);
    }
  }

  /** The release gives the token back to the server. */
  lemma ReleaseRunClaims(srv: nat, c: nat, s: Sys, s': Sys, i: nat, tokens: map<nat, Token>)
    requires Inv(s) && Claims(srv, c, s, tokens) && Returns(srv, s, s', i, OK)
    requires s.servers[srv].execs[i].req.proc == RELEASE
    ensures Claims(srv, c, s', tokens[LidOf(s.servers[srv].execs[i].req) := AtServer])
  {
    RunningReleaseHasToken(srv, c, s, i, tokens);
    hide Inv, ReadLockArgs, LidOf, Granted, HandlerDone;
    var req := s.servers[srv].execs[i].req;
    var tokens' := tokens[LidOf(req) := AtServer];
    forall j | 0 <= j < |s'.servers[srv].execs| && Granted(s'.servers[srv], j)
      ensures s'.servers[srv].execs[j].req.xid in s'.client.calls ==>
        HasToken(tokens', LidOf(s'.servers[srv].execs[j].req), Out(c, s'.servers[srv].execs[j].req.xid))
    {
      GrantedAfterReturn(srv, s, s', i, OK, j);
    }
    forall y | y in s'.headers && s'.headers[y].proc == RELEASE && !HandlerDone(s', srv, y)
      ensures HasToken(tokens', LidOf(s'.headers[y]), Releasing(c, y))
    {
      DoneAfterReturn(srv, s, s', i, OK, y);
    }
  }

  lemma SleepersAfterReturn(w: World, c: nat, i: nat, w': World)
    requires SleepersOk(w) && c in w.clients && c in w'.clients && Returns(w.srv, w.clients[c], w'.clients[c], i, OK)
    requires w'.srv == w.srv && w'.clients == w.clients[c := w'.clients[c]]
    requires forall t | t in w'.monitor.sleepers :: t != LS.Tid(c, i) && t in w.monitor.sleepers
    requires forall t | t in w'.monitor.sleepers ::
      w'.monitor.sleepers[t].lid == w.monitor.sleepers[t].lid && w'.monitor.sleepers[t].clt == w.monitor.sleepers[t].clt
    ensures SleepersOk(w')
  {
    hide LidOf;
    forall t | t in w'.monitor.sleepers ensures SleeperOk(w', t, w'.monitor.sleepers[t]) {
      assert SleeperOk(w, t, w.monitor.sleepers[t]);
    }
  }

  /** The return of a lock handler, as an event of its client's RPC system. */
  lemma HandlerReturnsStep(w: World, c: nat, i: nat, proc: nat)
    requires WorldInv(w) && RunningExec(w, c, i, proc) && (proc == ACQUIRE || proc == RELEASE)
    ensures var w' := HandlerReturns(w, c, i, OK); var s, s' := w.clients[c], w'.clients[c];
      && w' == w.(clients := w.clients[c := s'])
      && Inv(s') && Returns(w.srv, s, s', i, OK) && s'.servers.Keys == s.servers.Keys
      && RpcSystem.Enabled(s, Return(w.srv, i, OK, Codec.EncU32(0)))
      && s' == RpcSystem.Step(s, Return(w.srv, i, OK, Codec.EncU32(0)))
  {
    hide Inv, Claims, TokensOk, SleepersOk, HoldOk;
    assert ClientOk(w.srv, c, w.clients[c], w.tokens);
    ReturnStep(w.srv, w.clients[c], i, OK, Codec.EncU32(0));
  }

  /** The lock handler of execution i returns and the token of its lock moves from where client c
      or the server had it to where client c or the server has it. */
  ghost predicate Moves(w: World, w': World, c: nat, i: nat, tok: Token) {
    && c in w.clients && w.srv in w.clients[c].servers && i < |w.clients[c].servers[w.srv].execs|
    && c in w'.clients && w'.clients == w.clients[c := w'.clients[c]]
    && Returns(w.srv, w.clients[c], w'.clients[c], i, OK)
    && Inv(w'.clients[c]) && w'.clients[c].servers.Keys == w.clients[c].servers.Keys
    && w'.tokens == w.tokens[LidOf(ExecReq(w, c, i)) := tok]
    && (LidOf(ExecReq(w, c, i)) in w.tokens ==>
          w.tokens[LidOf(ExecReq(w, c, i))].AtServer? || w.tokens[LidOf(ExecReq(w, c, i))].client == c)
    && Claims(w.srv, c, w'.clients[c], w'.tokens)
    && w'.srv == w.srv && w'.holds == w.holds && w'.crashed == w.crashed
  }

  lemma MovedClients(w: World, w': World, c: nat, i: nat, tok: Token)
    requires WorldInv(w) && Moves(w, w', c, i, tok)
    ensures forall c' | c' in w'.clients :: ClientOk(w'.srv, c', w'.clients[c'], w'.tokens)
  {
    hide Inv, Claims, TokensOk, SleepersOk, HoldOk, LidOf;
    assert ClientOk(w.srv, c, w.clients[c], w.tokens);
    var lid := LidOf(ExecReq(w, c, i));
    forall c' | c' in w'.clients && c' != c ensures ClientOk(w'.srv, c', w'.clients[c'], w'.tokens) {
      OthersDoNotCare(w.srv, c', w.clients[c'], w.tokens, lid, tok);
    }
  }

  lemma MovedHolds(w: World, w': World, c: nat, i: nat, tok: Token)
    requires WorldInv(w) && Moves(w, w', c, i, tok)
    requires LidOf(ExecReq(w, c, i)) in w.tokens ==> !w.tokens[LidOf(ExecReq(w, c, i))].Out?
    ensures forall h | h in w'.holds :: HoldOk(w', h)
  {
    hide Inv, Claims, TokensOk, SleepersOk, ClientOk, LidOf;
    forall h | h in w'.holds ensures HoldOk(w', h) {
      assert HoldOk(w, h);
    }
  }

  lemma MovedAccounts(w: World, w': World, c: nat, i: nat, tok: Token)
    requires WorldInv(w) && Moves(w, w', c, i, tok)
    requires tok.AtServer? || (tok.client == c && Accounted(w.srv, w'.clients[c], LidOf(ExecReq(w, c, i)), tok))
    requires ExecReq(w, c, i).proc == ACQUIRE || ExecReq(w, c, i).proc == RELEASE
    ensures forall lid | lid in w'.tokens && !w'.tokens[lid].AtServer? ::
         w'.tokens[lid].client in w'.clients && Accounted(w'.srv, w'.clients[w'.tokens[lid].client], lid, w'.tokens[lid])
  {
    hide Inv, Claims, SleepersOk, HoldOk, LidOf, TokenAgrees, Returns, Granted, HandlerDone;
    var s := w.clients[c];
    assert ClientOk(w.srv, c, s, w.tokens);
    ExecIsHeader(s, w.srv, i);
    forall lid | lid in w'.tokens && !w'.tokens[lid].AtServer?
      ensures w'.tokens[lid].client in w'.clients && Accounted(w'.srv, w'.clients[w'.tokens[lid].client], lid, w'.tokens[lid])
    {
      if lid != LidOf(ExecReq(w, c, i)) && w.tokens[lid].client == c {
        ReturnAccounts(w.srv, s, w'.clients[c], i, OK, lid, w.tokens[lid]);
      }
    }
  }

  /** The arguments of a running lock handler decode, to its client's nonce and its lock. */
  lemma RunningArgs(w: World, c: nat, i: nat, proc: nat)
    requires WorldInv(w) && RunningExec(w, c, i, proc) && (proc == ACQUIRE || proc == RELEASE)
    ensures ReadLockArgs(ExecReq(w, c, i).args) == Some((c, LidOf(ExecReq(w, c, i))))
  {
    hide Inv, ReadLockArgs, LidOf, TokensOk, SleepersOk, HoldOk;
    assert ClientOk(w.srv, c, w.clients[c], w.tokens);
    ExecIsHeader(w.clients[c], w.srv, i);
  }

  /** A handler that finds the lock free returns with the lock set for its caller. */
  lemma GrantKeeps(w: World, c: nat, i: nat, m: LS.Monitor)
    requires WorldInv(w) && RunningExec(w, c, i, ACQUIRE)
    requires var lid := LidOf(ExecReq(w, c, i));
      && (lid in w.monitor.locks ==> !w.monitor.locks[lid].locked)
      && m.locks == w.monitor.locks[lid := LS.LockRec(true, c)]
    requires m.sleepers == w.monitor.sleepers - {LS.Tid(c, i)}
    requires LS.NoLostWakeup(m)
    ensures WorldInv(AfterGrant(w, c, i, m, true))
  {
    hide Inv, ReadLockArgs, LidOf, RpcSystem.Step, RpcSystem.Enabled, LS.NoLostWakeup, Claims, HoldOk, SleepersOk, ClientOk, Accounted;
    var w' := AfterGrant(w, c, i, m, true);
    var lid, x := LidOf(ExecReq(w, c, i)), ExecReq(w, c, i).xid;
    HandlerReturnsStep(w, c, i, ACQUIRE);
    assert lid in w.tokens ==> w.tokens[lid].AtServer?;
    ClaimsOf(w, c);
    GrantClaims(w.srv, c, w.clients[c], w'.clients[c], i, w.tokens);
    assert Moves(w, w', c, i, Out(c, x));
    hide Returns;
    MovedClients(w, w', c, i, Out(c, x));
    MovedHolds(w, w', c, i, Out(c, x));
    MovedAccounts(w, w', c, i, Out(c, x));
    SleepersAfterReturn(w, c, i, w');
  }

  lemma ClaimsOf(w: World, c: nat)
    requires WorldInv(w) && c in w.clients
    ensures Claims(w.srv, c, w.clients[c], w.tokens) && Inv(w.clients[c])
  {
    hide Inv, Claims, TokensOk, HoldOk, SleepersOk;
    assert ClientOk(w.srv, c, w.clients[c], w.tokens);
  }

  /** A handler that finds the lock taken waits. */
  lemma WaitKeeps(w: World, c: nat, i: nat, m: LS.Monitor)
    requires WorldInv(w) && RunningExec(w, c, i, ACQUIRE)
    requires m.locks == w.monitor.locks
    requires m.sleepers == w.monitor.sleepers[LS.Tid(c, i) := LS.Sleeper(LidOf(ExecReq(w, c, i)), c, false)]
    requires LS.NoLostWakeup(m)
    ensures WorldInv(w.(monitor := m))
  {
    hide LidOf, LS.NoLostWakeup, HoldOk, ClientOk;
    var w' := w.(monitor := m);
    assert TokensOk(w') by { hide SleepersOk; }
    assert SleepersOk(w') by {
      hide TokensOk;
      forall t | t in m.sleepers ensures SleeperOk(w', t, m.sleepers[t]) {
        if t != LS.Tid(c, i) { assert SleeperOk(w, t, w.monitor.sleepers[t]); }
      }
    }
    hide TokensOk, SleepersOk;
    forall h | h in w'.holds ensures HoldOk(w', h) {
      HoldOkSame(w, w', h);
    }
  }

  lemma HoldOkSame(w: World, w': World, h: Hold)
    requires HoldOk(w, h) && w'.clients == w.clients && w'.tokens == w.tokens
    ensures HoldOk(w', h)
  {
  }

  lemma RunAcquireKeeps(w: World, c: nat, i: nat)
    requires WorldInv(w) && Enabled(w, RunAcquire(c, i))
    ensures WorldInv(Step(w, RunAcquire(c, i)))
  {
    hide LidOf, ReadLockArgs, LS.NoLostWakeup, HoldOk, ClientOk, TokensOk, SleepersOk, HandlerReturns;
    RunningArgs(w, c, i, ACQUIRE);
    var t, lid := LS.Tid(c, i), LidOf(ExecReq(w, c, i));
    LS.StepKeepsNoLostWakeup(w.monitor, LS.Enter(t, c, lid));
    var (m, granted) := LS.GrantEnter(w.monitor, t, c, lid);
    if granted {
      assert w.monitor.sleepers - {t} == w.monitor.sleepers;
      GrantKeeps(w, c, i, m);
    } else {
      WaitKeeps(w, c, i, m);
    }
  }

  lemma ResumeAcquireKeeps(w: World, c: nat, i: nat)
    requires WorldInv(w) && Enabled(w, ResumeAcquire(c, i))
    ensures WorldInv(Step(w, ResumeAcquire(c, i)))
  {
    hide LidOf, ReadLockArgs, LS.NoLostWakeup, HoldOk, ClientOk, TokensOk, HandlerReturns;
    var t := LS.Tid(c, i);
    assert SleeperOk(w, t, w.monitor.sleepers[t]);
    LS.StepKeepsNoLostWakeup(w.monitor, LS.Resume(t));
    var (m, granted) := LS.GrantResume(w.monitor, t);
    if granted {
      GrantKeeps(w, c, i, m);
    } else {
      WaitKeeps(w, c, i, m);
    }
  }

  lemma RunReleaseKeeps(w: World, c: nat, i: nat, woken: set<LS.Tid>)
    requires WorldInv(w) && Enabled(w, RunRelease(c, i, woken))
    ensures WorldInv(Step(w, RunRelease(c, i, woken)))
  {
    hide Inv, ReadLockArgs, LidOf, RpcSystem.Step, RpcSystem.Enabled, LS.NoLostWakeup, Claims, HoldOk, SleepersOk, ClientOk, Accounted;
    var w' := Step(w, RunRelease(c, i, woken));
    var lid, x := LidOf(ExecReq(w, c, i)), ExecReq(w, c, i).xid;
    RunningArgs(w, c, i, RELEASE);
    ClaimsOf(w, c);
    RunningReleaseHasToken(w.srv, c, w.clients[c], i, w.tokens);
    assert w.monitor.locks[lid] == LS.LockRec(true, c);
    LS.StepKeepsNoLostWakeup(w.monitor, LS.Unlock(c, lid, woken));
    HandlerReturnsStep(w, c, i, RELEASE);
    ReleaseRunClaims(w.srv, c, w.clients[c], w'.clients[c], i, w.tokens);
    assert Moves(w, w', c, i, AtServer);
    hide Returns;
    MovedClients(w, w', c, i, AtServer);
    MovedHolds(w, w', c, i, AtServer);
    MovedAccounts(w, w', c, i, AtServer);
    assert LS.Tid(c, i) !in w.monitor.sleepers by { ReleaseDoesNotSleep(w, c, i); }
    SleepersAfterReturn(w, c, i, w');
  }

  lemma ReleaseDoesNotSleep(w: World, c: nat, i: nat)
    requires SleepersOk(w) && RunningExec(w, c, i, RELEASE)
    ensures LS.Tid(c, i) !in w.monitor.sleepers
  {
    hide LidOf;
    var t := LS.Tid(c, i);
    assert t in w.monitor.sleepers ==> SleeperOk(w, t, w.monitor.sleepers[t]);
  }

  lemma SpuriousKeeps(w: World, t: LS.Tid)
    requires WorldInv(w) && Enabled(w, Spurious(t))
    ensures WorldInv(Step(w, Spurious(t)))
  {
    hide LidOf, LS.NoLostWakeup, HoldOk, ClientOk, Accounted;
    var w' := Step(w, Spurious(t));
    LS.StepKeepsNoLostWakeup(w.monitor, LS.Spurious(t));
    forall u | u in w'.monitor.sleepers ensures SleeperOk(w', u, w'.monitor.sleepers[u]) {
      assert SleeperOk(w, u, w.monitor.sleepers[u]);
    }
    forall h | h in w'.holds ensures HoldOk(w', h) {
      HoldOkSame(w, w', h);
    }
  }

  lemma StepKeepsWorldInv(w: World, e: Event)
    requires WorldInv(w) && Enabled(w, e)
    ensures WorldInv(Step(w, e))
  {
    hide WorldInv, Step, Enabled;
    match e
    case Rpc(c, re) => RpcStepKeeps(w, c, re);
    case Acquire(c, lid) => AcquireKeeps(w, c, lid);
    case Release(h) => ReleaseKeeps(w, h);
    case RunAcquire(c, i) => RunAcquireKeeps(w, c, i);
    case ResumeAcquire(c, i) => ResumeAcquireKeeps(w, c, i);
    case RunRelease(c, i, woken) => RunReleaseKeeps(w, c, i, woken);
    case Spurious(t) => SpuriousKeeps(w, t);
  }

  lemma InitWorldInv(w: World)
    requires Init(w)
    ensures WorldInv(w)
  {
    hide Inv;
    forall c | c in w.clients ensures ClientOk(w.srv, c, w.clients[c], w.tokens) {
      InitInv(w.clients[c]);
    }
  }

  lemma {:induction false} RunWorldInv(ws: seq<World>, es: seq<Event>, i: nat)
    requires Run(ws, es) && i < |ws|
    ensures WorldInv(ws[i])
  {
    hide WorldInv, Step, Enabled, Init;
    if i == 0 {
      InitWorldInv(ws[0]);
    } else {
      RunWorldInv(ws, es, i - 1);
      StepKeepsWorldInv(ws[i - 1], es[i - 1]);
      assert ws[i] == Step(ws[i - 1], es[i - 1]);
    }
  }

  // ---- Theorems ----

  /** Mutual exclusion: at no point of any run do two threads, of the same client or of different
      clients, hold the same lock; and the server's table names the holder's client as owner. */
  lemma MutualExclusion(ws: seq<World>, es: seq<Event>, i: nat, g: Hold, h: Hold)
    requires Run(ws, es) && i < |ws|
    requires g in ws[i].holds && h in ws[i].holds && g.lid == h.lid
    ensures g == h
    ensures g.lid in ws[i].monitor.locks && ws[i].monitor.locks[g.lid] == LS.LockRec(true, g.client)
  {
    hide ClientOk, SleepersOk, LS.NoLostWakeup, Accounted, Run;
    RunWorldInv(ws, es, i);
    assert HoldOk(ws[i], g) && HoldOk(ws[i], h);
  }

  /** The token of each lock is conserved: it is at the server exactly when the lock is free, and
      otherwise with exactly one call, which the server's and the client's records account for. */
  lemma TokenConserved(ws: seq<World>, es: seq<Event>, i: nat, lid: nat)
    requires Run(ws, es) && i < |ws| && lid in ws[i].monitor.locks
    ensures lid in ws[i].tokens
    ensures ws[i].tokens[lid].AtServer? <==> !ws[i].monitor.locks[lid].locked
    ensures !ws[i].tokens[lid].AtServer? ==>
      && ws[i].tokens[lid].client in ws[i].clients
      && ws[i].monitor.locks[lid].clt == ws[i].tokens[lid].client
      && Accounted(ws[i].srv, ws[i].clients[ws[i].tokens[lid].client], lid, ws[i].tokens[lid])
    ensures forall h | h in ws[i].holds && h.lid == lid :: ws[i].tokens[lid] == Out(h.client, h.xid)
  {
    hide ClientOk, SleepersOk, LS.NoLostWakeup, Accounted, Run;
    RunWorldInv(ws, es, i);
    forall h | h in ws[i].holds && h.lid == lid ensures ws[i].tokens[lid] == Out(h.client, h.xid) {
      assert HoldOk(ws[i], h);
    }
  }

  /** A release that reaches the server always finds its lock in the table, locked, in the name of
      the client that sent it: `release` dereferences no missing lock and never prints an error. */
  lemma ReleaseFindsItsLock(ws: seq<World>, es: seq<Event>, i: nat, c: nat, exec: nat)
    requires Run(ws, es) && i < |ws| && RunningExec(ws[i], c, exec, RELEASE)
    ensures !ws[i].crashed
    ensures var lid := LidOf(ExecReq(ws[i], c, exec));
      lid in ws[i].monitor.locks && ws[i].monitor.locks[lid] == LS.LockRec(true, c)
  {
    hide ClientOk, SleepersOk, LS.NoLostWakeup, Accounted, Run, Claims, HoldOk, Inv, LidOf, ReadLockArgs;
    var w := ws[i];
    RunWorldInv(ws, es, i);
    ClaimsOf(w, c);
    RunningReleaseHasToken(w.srv, c, w.clients[c], exec, w.tokens);
  }

  /** The monitor loses no wakeup in any run of the whole service. */
  lemma ServiceLosesNoWakeup(ws: seq<World>, es: seq<Event>, i: nat)
    requires Run(ws, es) && i < |ws|
    ensures LS.NoLostWakeup(ws[i].monitor)
  {
    hide Run, ClientOk, TokensOk, SleepersOk, HoldOk, LS.NoLostWakeup;
    RunWorldInv(ws, es, i);
  }
}
