/** One client nonce, any number of server instances, and a network that may deliver every message
    ever sent any number of times, in any order, to any instance, or never. Each event is one
    critical section of rpc/rpc.cc; `headers`, `reported`, `accepted` and `outcomes` record history
    and influence nothing. */
module RpcSystem {
  import opened RpcTypes
  import opened RpcClient
  import opened ReplyWindow
  import opened XidWindow
  import Codec

  /** A dispatch thread that took the NEW branch: its handler runs, has returned, or its reply has
      been stored and sent. */
  datatype Phase = Running | Returned(rep: Rep) | Replied(rep: Rep)

  datatype Exec = Exec(req: Req, phase: Phase)

  /** A server instance's share of this client: its window, the log of NEW verdicts, and the log of
      buffers passed to `free`. */
  datatype Srv = Srv(window: seq<Entry>, execs: seq<Exec>, freed: seq<nat>)

  /** A reply on the wire, with the instance that sent it. */
  datatype Msg = Msg(from: nat, rep: Rep)

  datatype Sys = Sys(
    client: Client,
    headers: map<nat, Req>,
    reported: set<nat>,
    accepted: map<nat, Msg>,
    outcomes: map<nat, Outcome>,
    binds: set<nat>,
    reqs: set<Req>,
    reps: set<Msg>,
    procs: set<nat>,
    servers: map<nat, Srv>)

  datatype Event =
    | Start(proc: nat, args: Bytes)
    | Transmit(xid: nat)
    | Deliver(msg: Msg)
    | CancelAll
    | Finish(xid: nat)
    | EndBind(xid: nat)
    | Boot(srv: nat)
    | Receive(srv: nat, req: Req)
    | Return(srv: nat, exec: nat, ret: int, body: Bytes)
    | Reply(srv: nat, exec: nat)

  // ---- Handlers ----

  /** `rpcbind` behind its wrapper: the argument must be one int and nothing else. */
  function RunBind(args: Bytes, nonce: nat): (int, Bytes) {
    if |args| == 4 then (0, Codec.EncU32(nonce)) else (UNMARSHAL_ARGS_FAILURE, [])
  }

  predicate HandlerResult(req: Req, srv: nat, ret: int, body: Bytes) {
    && HandlerRet(ret)
    && (req.proc == BIND ==> (ret, body) == RunBind(req.args, srv))
  }

  /** `u >> r` and `okdone` on a bind reply. */
  function BindResult(body: Bytes): Option<nat> {
    var (r, c) := Codec.GetU32(body, Codec.Cur(0, true));
    if c.ok && c.ind == |body| then Some(r) else None
  }

  // ---- The step relation ----

  ghost predicate Init(s: Sys) {
    && s.client.cltNonce != 0
    && s.client == NewClient(s.client.cltNonce)
    && s == Sys(s.client, map[], {}, map[], map[], {}, {}, {}, s.procs, map[])
    && BIND in s.procs
  }

  predicate Enabled(s: Sys, e: Event) {
    |s.client.repWindow| > 0 &&
    match e
    case Start(proc, args) => StartCall(s.client, proc, args).Started?
    case Transmit(xid) => xid in s.client.calls
    case Deliver(msg) => msg in s.reps
    case CancelAll => true
    case Finish(xid) => xid in s.client.calls
    case EndBind(xid) =>
      xid in s.binds && xid in s.outcomes && s.outcomes[xid].ret == 0 && BindResult(s.outcomes[xid].body).Some?
    case Boot(srv) => 0 < srv < Codec.U32 && srv !in s.servers
    case Receive(srv, req) => srv in s.servers && req in s.reqs
    case Return(srv, i, ret, body) =>
      srv in s.servers && i < |s.servers[srv].execs| && s.servers[srv].execs[i].phase.Running?
      && HandlerResult(s.servers[srv].execs[i].req, srv, ret, body)
    case Reply(srv, i) =>
      srv in s.servers && i < |s.servers[srv].execs| && s.servers[srv].execs[i].phase.Returned?
  }

  function Step(s: Sys, e: Event): Sys
    requires Enabled(s, e)
  {
    match e
    case Start(proc, args) =>
      var Started(cl, req) := StartCall(s.client, proc, args);
      s.(client := cl, headers := s.headers[req.xid := req])
    case Transmit(xid) =>
      s.(reqs := s.reqs + {s.client.calls[xid].req})
    case Deliver(msg) =>
      s.(client := GotPdu(s.client, msg.rep),
         reported := s.reported + {msg.rep.xid},
         accepted := if Awaits(s.client, msg.rep.xid) then s.accepted[msg.rep.xid := msg] else s.accepted)
    case CancelAll =>
      s.(client := Cancel(s.client))
    case Finish(xid) =>
      var (cl, out) := FinishCall(s.client, xid);
      s.(client := cl, reported := s.reported + {xid}, outcomes := s.outcomes[xid := out],
         binds := if s.client.calls[xid].req.proc == BIND then s.binds + {xid} else s.binds)
    case EndBind(xid) =>
      s.(client := BindDone(s.client, BindResult(s.outcomes[xid].body).value), binds := s.binds - {xid})
    case Boot(srv) =>
      s.(servers := s.servers[srv := Srv([], [], [])])
    case Receive(srv, req) =>
      var (sv, out) := Dispatch(s.procs, srv, s.servers[srv], req);
      s.(servers := s.servers[srv := sv], reps := s.reps + out)
    case Return(srv, i, ret, body) =>
      var sv := s.servers[srv];
      s.(servers := s.servers[srv := SetPhase(sv, i, Returned(Rep(sv.execs[i].req.xid, ret, body)))])
    case Reply(srv, i) =>
      var sv := s.servers[srv];
      s.(servers := s.servers[srv := StoreAndSend(sv, i)], reps := s.reps + {Msg(srv, sv.execs[i].phase.rep)})
  }

  function SetPhase(sv: Srv, i: nat, phase: Phase): Srv
    requires i < |sv.execs|
  {
    sv.(execs := sv.execs[i := sv.execs[i].(phase := phase)])
  }

  /** `add_reply`, then the send of the same bytes. */
  function StoreAndSend(sv: Srv, i: nat): Srv
    requires i < |sv.execs| && sv.execs[i].phase.Returned?
  {
    var ex := sv.execs[i];
    SetPhase(sv, i, Replied(ex.phase.rep)).(window := AddReply(sv.window, ex.req.xid, Buffer(i, ex.phase.rep)))
  }

  /** `dispatch` up to the handler: the server-nonce filter, the procedure table, the window. */
  function Dispatch(procs: set<nat>, srv: nat, sv: Srv, req: Req): (Srv, set<Msg>) {
    if req.srvNonce != 0 && req.srvNonce != srv then
      (sv, {Msg(srv, Rep(req.xid, OLDSRV_FAILURE, []))})
    else if req.proc !in procs then
      (sv, {})
    else
      var c := Check(sv.window, req.xid, req.xidRep);
      var sv1 := sv.(window := c.window, freed := sv.freed + TrimmedBufs(sv.window, req.xidRep));
      match c.verdict
      case New => (sv1.(execs := sv1.execs + [Exec(req, Running)]), {})
      case InProgress => (sv1, {})
      case Done(buf) => (sv1, {Msg(srv, buf.rep)})
      case Forgotten => (sv1, {Msg(srv, Rep(req.xid, ATMOSTONCE_FAILURE, []))})
  }

  ghost predicate Run(ss: seq<Sys>, es: seq<Event>) {
    && |ss| == |es| + 1
    && Init(ss[0])
    && forall i | 0 <= i < |es| :: Enabled(ss[i], es[i]) && ss[i + 1] == Step(ss[i], es[i])
  }

  // ---- Invariants ----

  ghost predicate Executed(sv: Srv, xid: nat) {
    exists i | 0 <= i < |sv.execs| :: sv.execs[i].req.xid == xid
  }

  /** The instance has left `xid` behind without ever running it. */
  ghost predicate Doomed(sv: Srv, xid: nat) {
    sv.window != [] && xid < sv.window[0].xid && !Executed(sv, xid)
  }

  ghost predicate HeaderOk(h: Req, xid: nat, cltNonce: nat, reported: set<nat>) {
    && h.xid == xid && h.cltNonce == cltNonce
    && h.xidRep < xid
    && (forall y | 1 <= y <= h.xidRep :: y in reported)
    && (h.proc != BIND ==> h.srvNonce != 0)
  }

  ghost predicate ClientInv(s: Sys) {
    var cl := s.client;
    && cl.cltNonce != 0
    && Represents(cl.repWindow, s.reported)
    && cl.nextXid >= 1
    && (forall x :: x in s.headers <==> 1 <= x < cl.nextXid)
    && (forall x | x in s.headers :: HeaderOk(s.headers[x], x, cl.cltNonce, s.reported))
    && (forall x | x in cl.calls :: x in s.headers && cl.calls[x].req == s.headers[x])
    && s.reported <= s.headers.Keys
    && (forall x | x in s.reported && x in cl.calls :: cl.calls[x].done)
    && (forall x | x in s.headers && x !in cl.calls :: x in s.reported)
    && (cl.bindDone ==> cl.srvNonce != 0)
  }

  ghost predicate ExecOk(srv: nat, ex: Exec, headers: map<nat, Req>) {
    && ex.req.xid >= 1 && ex.req.xid in headers && headers[ex.req.xid] == ex.req
    && (ex.req.srvNonce == 0 || ex.req.srvNonce == srv)
    && (!ex.phase.Running? ==>
         ex.phase.rep.xid == ex.req.xid && HandlerResult(ex.req, srv, ex.phase.rep.ret, ex.phase.rep.body))
  }

  ghost predicate UniqueXids(execs: seq<Exec>) {
    forall i, j | 0 <= i < j < |execs| :: execs[i].req.xid != execs[j].req.xid
  }

  /** The window entry of execution i: it holds the reply iff that has been stored. */
  ghost predicate EntryOf(e: Entry, execs: seq<Exec>, i: nat) {
    && i < |execs| && execs[i].req.xid == e.xid
    && e.reply == if execs[i].phase.Replied? then Some(Buffer(i, execs[i].phase.rep)) else None
  }

  /** An executed xid is listed, or below the front of a nonempty window and given up by the client. */
  ghost predicate Remembered(w: seq<Entry>, xid: nat, reported: set<nat>) {
    Listed(w, xid) || (w != [] && xid < w[0].xid && xid in reported)
  }

  ghost predicate SrvInv(srv: nat, sv: Srv, headers: map<nat, Req>, reported: set<nat>) {
    && 0 < srv < Codec.U32
    && Sorted(sv.window)
    && (forall i | 0 <= i < |sv.execs| :: ExecOk(srv, sv.execs[i], headers))
    && UniqueXids(sv.execs)
    && (forall e | e in sv.window :: exists i :: EntryOf(e, sv.execs, i))
    && (forall i | 0 <= i < |sv.execs| :: Remembered(sv.window, sv.execs[i].req.xid, reported))
  }

  ghost predicate FromExec(rep: Rep, sv: Srv, i: nat) {
    i < |sv.execs| && sv.execs[i].phase == Replied(rep)
  }

  /** Every reply in the network says something true about the instance that sent it. */
  ghost predicate MsgOk(rep: Rep, sv: Srv, reported: set<nat>) {
    || rep.ret == OLDSRV_FAILURE
    || (rep.ret == ATMOSTONCE_FAILURE && (rep.xid in reported || Doomed(sv, rep.xid)))
    || exists i :: FromExec(rep, sv, i)
  }

  /** Only the addressed instance (or, for a bind, any instance) gets past the server-nonce filter. */
  ghost predicate Addressed(m: Msg, h: Req) {
    m.rep.ret == OLDSRV_FAILURE || h.srvNonce == 0 || h.srvNonce == m.from
  }

  ghost predicate NetInv(s: Sys) {
    && (forall r | r in s.reqs :: r.xid in s.headers && s.headers[r.xid] == r)
    && (forall m | m in s.reps ::
         && m.rep.xid in s.headers && m.from in s.servers
         && Addressed(m, s.headers[m.rep.xid]) && MsgOk(m.rep, s.servers[m.from], s.reported))
    && (forall srv | srv in s.servers :: SrvInv(srv, s.servers[srv], s.headers, s.reported))
  }

  /** A result comes from the one accepted reply, or from `cancel`. */
  ghost predicate Explained(accepted: map<nat, Msg>, xid: nat, ret: int, body: Bytes) {
    ret == CANCEL_FAILURE || (xid in accepted && ret == accepted[xid].rep.ret && body == accepted[xid].rep.body)
  }

  ghost predicate CallInv(s: Sys) {
    && (forall x | x in s.accepted :: x in s.reported && s.accepted[x] in s.reps && s.accepted[x].rep.xid == x)
    && (forall x | x in s.accepted && s.accepted[x].rep.ret == ATMOSTONCE_FAILURE ::
         s.accepted[x].from in s.servers && Doomed(s.servers[s.accepted[x].from], x))
    && (forall x | x in s.client.calls && s.client.calls[x].done ::
         Explained(s.accepted, x, s.client.calls[x].intret, s.client.calls[x].body))
    && (forall x | x in s.outcomes :: x in s.headers && x !in s.client.calls)
    && (forall x | x in s.outcomes :: s.outcomes[x].ret == TIMEOUT_FAILURE
         || Explained(s.accepted, x, s.outcomes[x].ret, s.outcomes[x].body))
    && (forall x | x in s.binds :: x in s.headers && s.headers[x].proc == BIND)
  }

  ghost predicate Inv(s: Sys) {
    ClientInv(s) && NetInv(s) && CallInv(s)
  }

  // ---- How an instance evolves ----

  ghost predicate Evolves(sv: Srv, sv': Srv) {
    && |sv.execs| <= |sv'.execs|
    && (forall i | 0 <= i < |sv.execs| ::
         sv'.execs[i].req == sv.execs[i].req && (sv.execs[i].phase.Replied? ==> sv'.execs[i] == sv.execs[i]))
    && (sv.window != [] ==> sv'.window != [] && sv.window[0].xid <= sv'.window[0].xid)
    && (sv.window != [] ==> forall i | |sv.execs| <= i < |sv'.execs| :: sv.window[0].xid < sv'.execs[i].req.xid)
  }

  lemma EvolvesTransitive(a: Srv, b: Srv, c: Srv)
    requires Evolves(a, b) && Evolves(b, c)
    ensures Evolves(a, c)
  {
  }

  lemma DoomedForever(sv: Srv, sv': Srv, xid: nat)
    requires Evolves(sv, sv') && Doomed(sv, xid)
    ensures Doomed(sv', xid)
  {
  }

  lemma MsgOkForever(rep: Rep, sv: Srv, sv': Srv, reported: set<nat>, reported': set<nat>)
    requires MsgOk(rep, sv, reported) && Evolves(sv, sv') && reported <= reported'
    ensures MsgOk(rep, sv', reported')
  {
    if i: nat :| FromExec(rep, sv, i) {
      assert FromExec(rep, sv', i);
    }
  }

  lemma SrvInvGrows(srv: nat, sv: Srv, headers: map<nat, Req>, headers': map<nat, Req>, reported: set<nat>, reported': set<nat>)
    requires SrvInv(srv, sv, headers, reported)
    requires reported <= reported'
    requires forall x | x in headers :: x in headers' && headers'[x] == headers[x]
    ensures SrvInv(srv, sv, headers', reported')
  {
  }

  // ---- One instance, one event ----

  lemma ReviewedHeader(req: Req, headers: map<nat, Req>, c: nat, reported: set<nat>, srv: nat, sv: Srv)
    requires SrvInv(srv, sv, headers, reported) && HeaderOk(req, req.xid, c, reported)
    requires Executed(sv, req.xid)
    ensures Listed(Trim(sv.window, req.xidRep), req.xid) || (sv.window != [] && req.xid < sv.window[0].xid)
  {
    var w := sv.window;
    if Listed(w, req.xid) {
      var k :| 0 <= k < |w| && w[k].xid == req.xid;
      TrimKeeps(w, req.xidRep);
      assert w[k] in Trim(w, req.xidRep);
      ListedIn(Trim(w, req.xidRep), req.xid);
    }
  }

  /** The NEW verdict is given only to an xid this instance has never executed. */
  lemma NewIsFresh(req: Req, headers: map<nat, Req>, c: nat, reported: set<nat>, srv: nat, sv: Srv)
    requires SrvInv(srv, sv, headers, reported) && HeaderOk(req, req.xid, c, reported)
    requires Check(sv.window, req.xid, req.xidRep).verdict.New?
    ensures !Executed(sv, req.xid)
  {
    if Executed(sv, req.xid) {
      ReviewedHeader(req, headers, c, reported, srv, sv);
      CheckMeetsSpec(sv.window, req.xid, req.xidRep);
      FrontNeverDecreases(sv.window, req.xid, req.xidRep);
    }
  }

  lemma RememberedAfter(w: seq<Entry>, req: Req, c: nat, reported: set<nat>, xid: nat)
    requires Sorted(w) && HeaderOk(req, req.xid, c, reported)
    requires Remembered(w, xid, reported) && xid >= 1
    ensures Remembered(Check(w, req.xid, req.xidRep).window, xid, reported)
  {
    var w' := Check(w, req.xid, req.xidRep).window;
    FrontNeverDecreases(w, req.xid, req.xidRep);
    if Listed(w, xid) {
      var k :| 0 <= k < |w| && w[k].xid == xid;
      assert w[k] in w;
      ListedIn(w', xid);
    }
  }

  /** The NEW log after a verdict. */
  function Logged(execs: seq<Exec>, req: Req, verdict: Verdict): seq<Exec> {
    if verdict.New? then execs + [Exec(req, Running)] else execs
  }

  lemma EntriesAfter(w: seq<Entry>, execs: seq<Exec>, req: Req)
    requires Sorted(w) && forall e | e in w :: exists i :: EntryOf(e, execs, i)
    ensures var ck := Check(w, req.xid, req.xidRep);
      forall e | e in ck.window :: exists i :: EntryOf(e, Logged(execs, req, ck.verdict), i)
  {
    hide Check, Trim;
    var ck := Check(w, req.xid, req.xidRep);
    var execs' := Logged(execs, req, ck.verdict);
    CheckMeetsSpec(w, req.xid, req.xidRep);
    TrimKeeps(w, req.xidRep);
    forall e | e in ck.window ensures exists i :: EntryOf(e, execs', i) {
      if e in w {
        var i :| EntryOf(e, execs, i);
        assert EntryOf(e, execs', i);
      } else {
        assert EntryOf(e, execs', |execs|);
      }
    }
  }

  lemma ExecsAfter(srv: nat, sv: Srv, req: Req, headers: map<nat, Req>, reported: set<nat>, c: nat)
    requires SrvInv(srv, sv, headers, reported)
    requires req.xid >= 1 && req.xid in headers && headers[req.xid] == req && HeaderOk(req, req.xid, c, reported)
    requires req.srvNonce == 0 || req.srvNonce == srv
    ensures var ck := Check(sv.window, req.xid, req.xidRep); var execs' := Logged(sv.execs, req, ck.verdict);
      && UniqueXids(execs')
      && (forall i | 0 <= i < |execs'| :: ExecOk(srv, execs'[i], headers))
      && (forall i | 0 <= i < |execs'| :: Remembered(ck.window, execs'[i].req.xid, reported))
  {
    hide Check, Trim, HandlerResult, EntryOf, Remembered;
    var ck := Check(sv.window, req.xid, req.xidRep);
    var execs' := Logged(sv.execs, req, ck.verdict);
    if ck.verdict.New? {
      NewIsFresh(req, headers, c, reported, srv, sv);
      NewIsRemembered(sv.window, req, reported);
    }
    forall i | 0 <= i < |execs'| ensures Remembered(ck.window, execs'[i].req.xid, reported) {
      if i < |sv.execs| {
        RememberedAfter(sv.window, req, c, reported, sv.execs[i].req.xid);
      }
    }
  }

  lemma NewIsRemembered(w: seq<Entry>, req: Req, reported: set<nat>)
    requires Sorted(w) && Check(w, req.xid, req.xidRep).verdict.New?
    ensures Remembered(Check(w, req.xid, req.xidRep).window, req.xid, reported)
  {
    hide Check, Trim;
    var w' := Check(w, req.xid, req.xidRep).window;
    CheckMeetsSpec(w, req.xid, req.xidRep);
    assert Entry(req.xid, None) in w';
    ListedIn(w', req.xid);
  }

  lemma CheckedSrv(procs: set<nat>, srv: nat, sv: Srv, req: Req, headers: map<nat, Req>, reported: set<nat>, c: nat)
    requires SrvInv(srv, sv, headers, reported)
    requires req.xid >= 1 && req.xid in headers && headers[req.xid] == req && HeaderOk(req, req.xid, c, reported)
    requires req.srvNonce == 0 || req.srvNonce == srv
    requires req.proc in procs
    ensures var sv' := Dispatch(procs, srv, sv, req).0; SrvInv(srv, sv', headers, reported) && Evolves(sv, sv')
  {
    hide Check, Trim, TrimmedBufs, ExecOk, EntryOf, Remembered;
    CheckMeetsSpec(sv.window, req.xid, req.xidRep);
    FrontNeverDecreases(sv.window, req.xid, req.xidRep);
    EntriesAfter(sv.window, sv.execs, req);
    ExecsAfter(srv, sv, req, headers, reported, c);
  }

  /** A stored reply comes from the execution of the same request. */
  lemma DoneIsFromExec(srv: nat, sv: Srv, req: Req, headers: map<nat, Req>, reported: set<nat>, buf: Buffer)
    requires SrvInv(srv, sv, headers, reported)
    requires Check(sv.window, req.xid, req.xidRep).verdict == Done(buf)
    ensures buf.rep.xid == req.xid && exists i :: FromExec(buf.rep, sv, i)
  {
    CheckMeetsSpec(sv.window, req.xid, req.xidRep);
    TrimKeeps(sv.window, req.xidRep);
    hide Check, Trim, Sorted;
    var e := Entry(req.xid, Some(buf));
    assert e in sv.window;
    var i: nat :| EntryOf(e, sv.execs, i);
    assert ExecOk(srv, sv.execs[i], headers);
    assert FromExec(buf.rep, sv, i);
  }

  /** A FORGOTTEN verdict is given to an xid the client has given up, or that never ran here. */
  lemma ForgottenIsLost(srv: nat, sv: Srv, req: Req, headers: map<nat, Req>, reported: set<nat>, c: nat)
    requires SrvInv(srv, sv, headers, reported)
    requires req.xid >= 1 && HeaderOk(req, req.xid, c, reported)
    requires Check(sv.window, req.xid, req.xidRep).verdict.Forgotten?
    ensures var w := Check(sv.window, req.xid, req.xidRep).window;
      req.xid in reported || (w != [] && req.xid < w[0].xid && !Executed(sv, req.xid))
  {
    CheckMeetsSpec(sv.window, req.xid, req.xidRep);
    FrontNeverDecreases(sv.window, req.xid, req.xidRep);
    if Executed(sv, req.xid) {
      var i :| 0 <= i < |sv.execs| && sv.execs[i].req.xid == req.xid;
      RememberedAfter(sv.window, req, c, reported, req.xid);
    }
  }

  lemma CheckedReplies(procs: set<nat>, srv: nat, sv: Srv, req: Req, headers: map<nat, Req>, reported: set<nat>, c: nat)
    requires SrvInv(srv, sv, headers, reported)
    requires req.xid >= 1 && req.xid in headers && headers[req.xid] == req && HeaderOk(req, req.xid, c, reported)
    requires req.srvNonce == 0 || req.srvNonce == srv
    requires req.proc in procs
    ensures var (sv', out) := Dispatch(procs, srv, sv, req);
      forall m | m in out :: m.from == srv && m.rep.xid == req.xid && Addressed(m, req) && MsgOk(m.rep, sv', reported)
  {
    hide SrvInv, HeaderOk, Check, TrimmedBufs;
    var ck := Check(sv.window, req.xid, req.xidRep);
    var sv' := Dispatch(procs, srv, sv, req).0;
    if ck.verdict.Done? {
      DoneIsFromExec(srv, sv, req, headers, reported, ck.verdict.buf);
      var i: nat :| FromExec(ck.verdict.buf.rep, sv, i);
      assert FromExec(ck.verdict.buf.rep, sv', i);
    } else if ck.verdict.Forgotten? {
      ForgottenIsLost(srv, sv, req, headers, reported, c);
    }
  }

  lemma DispatchKeeps(procs: set<nat>, srv: nat, sv: Srv, req: Req, headers: map<nat, Req>, reported: set<nat>, c: nat)
    requires SrvInv(srv, sv, headers, reported)
    requires req.xid >= 1 && req.xid in headers && headers[req.xid] == req && HeaderOk(req, req.xid, c, reported)
    ensures var (sv', out) := Dispatch(procs, srv, sv, req);
      && SrvInv(srv, sv', headers, reported) && Evolves(sv, sv')
      && forall m | m in out :: m.from == srv && m.rep.xid == req.xid && Addressed(m, req) && MsgOk(m.rep, sv', reported)
  {
    if (req.srvNonce == 0 || req.srvNonce == srv) && req.proc in procs {
      CheckedSrv(procs, srv, sv, req, headers, reported, c);
      CheckedReplies(procs, srv, sv, req, headers, reported, c);
    }
  }

  lemma ReturnKeeps(srv: nat, sv: Srv, i: nat, ret: int, body: Bytes, headers: map<nat, Req>, reported: set<nat>)
    requires SrvInv(srv, sv, headers, reported)
    requires i < |sv.execs| && sv.execs[i].phase.Running? && HandlerResult(sv.execs[i].req, srv, ret, body)
    ensures var sv' := SetPhase(sv, i, Returned(Rep(sv.execs[i].req.xid, ret, body)));
      SrvInv(srv, sv', headers, reported) && Evolves(sv, sv')
  {
    var sv' := SetPhase(sv, i, Returned(Rep(sv.execs[i].req.xid, ret, body)));
    forall e | e in sv'.window ensures exists j :: EntryOf(e, sv'.execs, j) {
      var j :| EntryOf(e, sv.execs, j);
      assert EntryOf(e, sv'.execs, j);
    }
  }

  lemma ReplyKeeps(srv: nat, sv: Srv, i: nat, headers: map<nat, Req>, reported: set<nat>)
    requires SrvInv(srv, sv, headers, reported)
    requires i < |sv.execs| && sv.execs[i].phase.Returned?
    ensures var sv' := StoreAndSend(sv, i);
      && SrvInv(srv, sv', headers, reported) && Evolves(sv, sv')
      && FromExec(sv.execs[i].phase.rep, sv', i)
  {
    var sv' := StoreAndSend(sv, i);
    var ex := sv.execs[i];
    AddReplyKeeps(sv.window, ex.req.xid, Buffer(i, ex.phase.rep));
    forall e' | e' in sv'.window ensures exists j :: EntryOf(e', sv'.execs, j) {
      var k :| 0 <= k < |sv'.window| && sv'.window[k] == e';
      var e := sv.window[k];
      assert e in sv.window;
      var j :| EntryOf(e, sv.execs, j);
      assert EntryOf(e', sv'.execs, j);
    }
    forall j | 0 <= j < |sv'.execs| ensures Remembered(sv'.window, sv'.execs[j].req.xid, reported) {
      var x := sv.execs[j].req.xid;
      assert Remembered(sv.window, x, reported);
      if k :| 0 <= k < |sv.window| && sv.window[k].xid == x {
        assert sv'.window[k].xid == x;
      }
    }
  }

  // ---- Every event keeps the invariant ----

  lemma ServerStepKeeps(s: Sys, srv: nat, sv: Srv, out: set<Msg>)
    requires Inv(s) && srv in s.servers
    requires SrvInv(srv, sv, s.headers, s.reported) && Evolves(s.servers[srv], sv)
    requires forall m | m in out ::
      m.from == srv && m.rep.xid in s.headers && Addressed(m, s.headers[m.rep.xid]) && MsgOk(m.rep, sv, s.reported)
    ensures Inv(s.(servers := s.servers[srv := sv], reps := s.reps + out))
  {
    hide SrvInv, Evolves, MsgOk, Doomed, Represents, HeaderOk, Addressed, Explained;
    var s' := s.(servers := s.servers[srv := sv], reps := s.reps + out);
    assert ClientInv(s');
    forall m | m in s'.reps ensures MsgOk(m.rep, s'.servers[m.from], s'.reported) {
      if m.from == srv && m !in out {
        MsgOkForever(m.rep, s.servers[srv], sv, s.reported, s.reported);
      }
    }
    forall x | x in s.accepted && s.accepted[x].rep.ret == ATMOSTONCE_FAILURE && s.accepted[x].from == srv
      ensures Doomed(sv, x)
    {
      DoomedForever(s.servers[srv], sv, x);
    }
  }

  lemma ReceiveKeeps(s: Sys, srv: nat, req: Req)
    requires Inv(s) && Enabled(s, Receive(srv, req))
    ensures Inv(Step(s, Receive(srv, req)))
  {
    hide SrvInv, Evolves, MsgOk, Dispatch;
    DispatchKeeps(s.procs, srv, s.servers[srv], req, s.headers, s.reported, s.client.cltNonce);
    var (sv, out) := Dispatch(s.procs, srv, s.servers[srv], req);
    ServerStepKeeps(s, srv, sv, out);
  }

  lemma HandlerStepKeeps(s: Sys, e: Event)
    requires Inv(s) && Enabled(s, e) && (e.Return? || e.Reply?)
    ensures Inv(Step(s, e))
  {
    var sv := s.servers[e.srv];
    if e.Return? {
      ReturnKeeps(e.srv, sv, e.exec, e.ret, e.body, s.headers, s.reported);
      var sv' := SetPhase(sv, e.exec, Returned(Rep(sv.execs[e.exec].req.xid, e.ret, e.body)));
      assert s.reps + {} == s.reps;
      ServerStepKeeps(s, e.srv, sv', {});
    } else {
      ReplyKeeps(e.srv, sv, e.exec, s.headers, s.reported);
      ServerStepKeeps(s, e.srv, StoreAndSend(sv, e.exec), {Msg(e.srv, sv.execs[e.exec].phase.rep)});
    }
  }

  lemma EmptySrvInv(srv: nat, headers: map<nat, Req>, reported: set<nat>)
    requires 0 < srv < Codec.U32
    ensures SrvInv(srv, Srv([], [], []), headers, reported)
  {
  }

  lemma BootKeeps(s: Sys, srv: nat)
    requires Inv(s) && Enabled(s, Boot(srv))
    ensures Inv(Step(s, Boot(srv)))
  {
    hide SrvInv, MsgOk, Doomed, ClientInv;
    EmptySrvInv(srv, s.headers, s.reported);
    ClientInvSame(s, Step(s, Boot(srv)));
  }

  /** `ClientInv` speaks of the client, its headers and its reports only. */
  lemma ClientInvSame(s: Sys, s': Sys)
    requires ClientInv(s) && s'.client == s.client && s'.headers == s.headers && s'.reported == s.reported
    ensures ClientInv(s')
  {
    hide Represents, HeaderOk;
  }

  lemma StartKeepsClient(s: Sys, proc: nat, args: Bytes)
    requires ClientInv(s) && Enabled(s, Start(proc, args))
    ensures ClientInv(Step(s, Start(proc, args)))
  {
    var s' := Step(s, Start(proc, args));
    var x := s.client.nextXid;
    assert s.client.repWindow[0] < x by {
      assert s.client.repWindow[0] >= 1 ==> s.client.repWindow[0] in s.reported;
    }
    hide Represents, HeaderOk;
    assert HeaderOk(s'.headers[x], x, s.client.cltNonce, s.reported) by {
      HeaderPacked(s, proc, args);
    }
  }

  lemma HeaderPacked(s: Sys, proc: nat, args: Bytes)
    requires ClientInv(s) && Enabled(s, Start(proc, args))
    ensures var req := StartCall(s.client, proc, args).req;
      req.xid == s.client.nextXid && HeaderOk(req, req.xid, s.client.cltNonce, s.reported)
  {
    var front := s.client.repWindow[0];
    assert front >= 1 ==> front in s.reported;
  }

  lemma StartKeepsNet(s: Sys, proc: nat, args: Bytes)
    requires ClientInv(s) && NetInv(s) && Enabled(s, Start(proc, args))
    ensures NetInv(Step(s, Start(proc, args)))
  {
    hide SrvInv, MsgOk, Represents, HeaderOk, Addressed;
    var s' := Step(s, Start(proc, args));
    forall srv | srv in s.servers ensures SrvInv(srv, s.servers[srv], s'.headers, s.reported) {
      SrvInvGrows(srv, s.servers[srv], s.headers, s'.headers, s.reported, s.reported);
    }
  }

  lemma StartKeepsCalls(s: Sys, proc: nat, args: Bytes)
    requires ClientInv(s) && CallInv(s) && Enabled(s, Start(proc, args))
    ensures CallInv(Step(s, Start(proc, args)))
  {
    hide Represents, HeaderOk, Doomed, Explained;
  }

  lemma StartKeeps(s: Sys, proc: nat, args: Bytes)
    requires Inv(s) && Enabled(s, Start(proc, args))
    ensures Inv(Step(s, Start(proc, args)))
  {
    hide ClientInv, NetInv, CallInv;
    StartKeepsClient(s, proc, args);
    StartKeepsNet(s, proc, args);
    StartKeepsCalls(s, proc, args);
  }

  /** Reporting more xids only weakens what the servers and the network must satisfy. */
  lemma ReportKeepsNet(s: Sys, s': Sys)
    requires NetInv(s) && s'.reqs == s.reqs && s'.reps == s.reps && s'.servers == s.servers
    requires s'.headers == s.headers && s.reported <= s'.reported
    ensures NetInv(s')
  {
    hide SrvInv, MsgOk;
    forall srv | srv in s.servers ensures SrvInv(srv, s.servers[srv], s.headers, s'.reported) {
      SrvInvGrows(srv, s.servers[srv], s.headers, s.headers, s.reported, s'.reported);
    }
    forall m | m in s.reps ensures MsgOk(m.rep, s.servers[m.from], s'.reported) {
      EvolvesReflexive(s.servers[m.from]);
      MsgOkForever(m.rep, s.servers[m.from], s.servers[m.from], s.reported, s'.reported);
    }
  }

  lemma EvolvesReflexive(sv: Srv)
    ensures Evolves(sv, sv)
  {
  }

  lemma HandlerRepliesAreHandlerRets(srv: nat, sv: Srv, headers: map<nat, Req>, reported: set<nat>, rep: Rep, i: nat)
    requires SrvInv(srv, sv, headers, reported) && FromExec(rep, sv, i)
    ensures ExecOk(srv, sv.execs[i], headers) && HandlerRet(rep.ret)
  {
  }

  /** A call that still waits for its reply can only be told FORGOTTEN by an instance that never ran it. */
  lemma AwaitedForgottenIsDoomed(s: Sys, m: Msg)
    requires Inv(s) && m in s.reps && Awaits(s.client, m.rep.xid) && m.rep.ret == ATMOSTONCE_FAILURE
    ensures Doomed(s.servers[m.from], m.rep.xid)
  {
    hide SrvInv, Doomed, Represents, HeaderOk;
    var sv := s.servers[m.from];
    assert m.rep.xid !in s.reported;
    if i: nat :| FromExec(m.rep, sv, i) {
      HandlerRepliesAreHandlerRets(m.from, sv, s.headers, s.reported, m.rep, i);
    }
  }

  lemma ReportKeepsClient(s: Sys, s': Sys, xid: nat)
    requires ClientInv(s) && xid in s.headers
    requires s'.headers == s.headers && s'.reported == s.reported + {xid}
    requires s'.client == s.client.(repWindow := Report(s.client.repWindow, xid), calls := s'.client.calls)
    requires forall x | x in s'.client.calls :: x in s.client.calls && s'.client.calls[x].req == s.client.calls[x].req
    requires forall x | x in s'.client.calls :: s.client.calls[x].done || x == xid ==> s'.client.calls[x].done
    requires forall x | x in s.client.calls && x !in s'.client.calls :: x == xid
    ensures ClientInv(s')
  {
    hide Represents, Report;
    ReportRepresents(s.client.repWindow, s.reported, xid);
  }

  lemma DeliverKeeps(s: Sys, m: Msg)
    requires Inv(s) && Enabled(s, Deliver(m))
    ensures Inv(Step(s, Deliver(m)))
  {
    hide SrvInv, MsgOk, Doomed, Represents, HeaderOk, Report;
    var s' := Step(s, Deliver(m));
    ReportKeepsClient(s, s', m.rep.xid);
    ReportKeepsNet(s, s');
    hide ClientInv;
    DeliverKeepsCalls(s, m);
  }

  lemma DeliverKeepsCalls(s: Sys, m: Msg)
    requires Inv(s) && Enabled(s, Deliver(m))
    ensures CallInv(Step(s, Deliver(m)))
  {
    hide SrvInv, MsgOk, Doomed, Represents, HeaderOk, Report, Addressed;
    if Awaits(s.client, m.rep.xid) {
      assert m.rep.xid !in s.reported;
      if m.rep.ret == ATMOSTONCE_FAILURE {
        AwaitedForgottenIsDoomed(s, m);
      }
    }
  }

  lemma FinishKeeps(s: Sys, xid: nat)
    requires Inv(s) && Enabled(s, Finish(xid))
    ensures Inv(Step(s, Finish(xid)))
  {
    hide SrvInv, MsgOk, Doomed, Represents, HeaderOk, Report;
    var s' := Step(s, Finish(xid));
    ReportKeepsClient(s, s', xid);
    ReportKeepsNet(s, s');
  }

  /** A bind that returned 0 carries the nonce of an instance that ran it, which is not zero. */
  lemma BindGivesNonce(s: Sys, xid: nat)
    requires Inv(s) && Enabled(s, EndBind(xid))
    ensures BindResult(s.outcomes[xid].body).value != 0
    ensures BindResult(s.outcomes[xid].body).value in s.servers
  {
    hide SrvInv, Doomed, Represents, HeaderOk, BindResult;
    assert Explained(s.accepted, xid, 0, s.outcomes[xid].body);
    var m := s.accepted[xid];
    var sv := s.servers[m.from];
    assert MsgOk(m.rep, sv, s.reported);
    var i: nat :| FromExec(m.rep, sv, i);
    HandlerRepliesAreHandlerRets(m.from, sv, s.headers, s.reported, m.rep, i);
    NonceRange(s, m.from);
    BindBody(m.from);
  }

  lemma NonceRange(s: Sys, srv: nat)
    requires NetInv(s) && srv in s.servers
    ensures 0 < srv < Codec.U32
  {
    assert SrvInv(srv, s.servers[srv], s.headers, s.reported);
  }

  lemma BindBody(nonce: nat)
    requires nonce < Codec.U32
    ensures BindResult(Codec.EncU32(nonce)) == Some(nonce)
  {
    var body := Codec.EncU32(nonce);
    assert body[0..4] == body;
    Codec.U32RoundTrip(body, 0, nonce);
  }

  lemma EndBindKeeps(s: Sys, xid: nat)
    requires Inv(s) && Enabled(s, EndBind(xid))
    ensures Inv(Step(s, EndBind(xid)))
  {
    hide SrvInv, MsgOk, Doomed, BindResult, Represents, HeaderOk;
    BindGivesNonce(s, xid);
  }

  lemma TransmitKeeps(s: Sys, xid: nat)
    requires Inv(s) && Enabled(s, Transmit(xid))
    ensures Inv(Step(s, Transmit(xid)))
  {
    hide SrvInv, MsgOk, Doomed, Represents;
    assert HeaderOk(s.headers[xid], xid, s.client.cltNonce, s.reported);
    ClientInvSame(s, Step(s, Transmit(xid)));
  }

  lemma CancelKeeps(s: Sys)
    requires Inv(s)
    ensures Inv(Step(s, CancelAll))
  {
    hide SrvInv, MsgOk, Doomed, Represents, HeaderOk;
  }

  lemma StepKeepsInv(s: Sys, e: Event)
    requires Inv(s) && Enabled(s, e)
    ensures Inv(Step(s, e))
  {
    hide Inv, Step, Enabled;
    match e
    case Start(proc, args) => StartKeeps(s, proc, args);
    case Transmit(xid) => TransmitKeeps(s, xid);
    case Deliver(m) => DeliverKeeps(s, m);
    case CancelAll => CancelKeeps(s);
    case Finish(xid) => FinishKeeps(s, xid);
    case EndBind(xid) => EndBindKeeps(s, xid);
    case Boot(srv) => BootKeeps(s, srv);
    case Receive(srv, req) => ReceiveKeeps(s, srv, req);
    case Return(srv, i, ret, body) => HandlerStepKeeps(s, e);
    case Reply(srv, i) => HandlerStepKeeps(s, e);
  }

  lemma InitInv(s: Sys)
    requires Init(s)
    ensures Inv(s)
  {
    assert s.client.repWindow == [0];
  }
}
