/** The message layer on real PDUs (rpc/rpc.cc:322-356, 472-610): decoding a PDU into the request or
    reply that the protocol machine works on, and `dispatch` and `got_pdu` in place. */
module Dispatcher {
  import opened RpcTypes
  import opened Codec
  import opened Marshall
  import opened Connection
  import opened RpcClient
  import opened ReplyWindow
  import opened RpcSystem

  // ---- PDUs ----

  function Unsigned(n: int): (u: nat)
    requires IsInt(n)
    ensures u < U32 && FromUnsigned(TI32, u) == n
  {
    ToUnsigned(TI32, n)
  }

  /** `None` when the header cannot be read; the protocol machine sees xids and procedures as the
      unsigned numbers that `checkduplicate_and_update` takes. */
  function ReqOf(b: Bytes): Option<Req> {
    var (h, c) := DecReqHeader(b, true);
    if !c.ok || |b| < RPC_HEADER_SZ then None
    else Some(Req(Unsigned(h.xid), Unsigned(h.prc), h.cltNonce, h.srvNonce, Unsigned(h.xidRep), b[RPC_HEADER_SZ..]))
  }

  /** The body of a reply starts behind the room that a request header needs; a shorter PDU has an empty
      body, from which no result can be decoded. */
  function RepOf(b: Bytes): Option<Rep> {
    var (h, c) := DecReplyHeader(b, true);
    if !c.ok then None
    else Some(Rep(Unsigned(h.xid), h.ret, if |b| < RPC_HEADER_SZ then [] else b[RPC_HEADER_SZ..]))
  }

  predicate FitsHeader(req: Req) {
    req.xid < U32 && req.proc < U32 && req.cltNonce < U32 && req.srvNonce < U32 && req.xidRep < U32
  }

  function HeaderOf(req: Req): (h: ReqHeader)
    requires FitsHeader(req)
    ensures ReqHeaderOk(h)
  {
    ReqHeader(FromUnsigned(TI32, req.xid), FromUnsigned(TI32, req.proc), req.cltNonce, req.srvNonce, FromUnsigned(TI32, req.xidRep))
  }

  lemma U32At(b: Bytes, i: nat)
    requires i + 4 <= |b|
    ensures GetU32(b, Cur(i, true)).1 == Cur(i + 4, true)
    ensures GetU32(b, Cur(i, true)).0
      == b[i] as nat * 0x1000000 + b[i + 1] as nat * 0x10000 + b[i + 2] as nat * 0x100 + b[i + 3] as nat
  {
  }

  /** A request header can be read exactly from what is long enough to hold one. */
  lemma ReqHeaderReadIff(b: Bytes)
    ensures DecReqHeader(b, true).1.ok <==> |b| >= RPC_HEADER_SZ
    ensures ReqOf(b).None? <==> |b| < RPC_HEADER_SZ
  {
    hide GetU32, FromUnsigned, ToUnsigned;
    if |b| >= 24 {
      U32At(b, 4); U32At(b, 8); U32At(b, 12); U32At(b, 16); U32At(b, 20);
    } else {
      ShortHeader(b);
    }
  }

  lemma ShortHeader(b: Bytes)
    requires |b| < RPC_HEADER_SZ
    ensures !DecReqHeader(b, true).1.ok
  {
    hide FromUnsigned, ToUnsigned;
    var c1 := GetInt(b, Cur(HEADER_SZ, true)).1;
    var c2 := GetInt(b, c1).1;
    var c3 := GetU32(b, c2).1;
    var c4 := GetU32(b, c3).1;
    var c5 := GetInt(b, c4).1;
    GetU32Stops(b, Cur(HEADER_SZ, true));
    GetU32Stops(b, c1);
    GetU32Stops(b, c2);
    GetU32Stops(b, c3);
    GetU32Stops(b, c4);
    hide GetU32;
  }

  /** A word is read whole, or the flag is down. */
  lemma GetU32Stops(b: Bytes, c: Cur)
    ensures var c1 := GetU32(b, c).1; c1.ok ==> c.ok && c1.ind == c.ind + 4 && c1.ind <= |b|
  {
  }

  /** What `call1` packs and sends is what `dispatch` reads, whatever the length word says. */
  lemma RequestRoundTrip(req: Req, b: Bytes)
    requires FitsHeader(req) && RPC_HEADER_SZ <= |b| < U32 / 2
    requires b[HEADER_SZ..] == EncReqHeader(HeaderOf(req)) + req.args
    ensures ReqOf(b) == Some(req)
  {
    hide EncReqHeader, DecReqHeader;
    var e := EncReqHeader(HeaderOf(req));
    assert b[HEADER_SZ..RPC_HEADER_SZ] == b[HEADER_SZ..][..RPC_HEADER_SZ - HEADER_SZ] == e;
    assert b[RPC_HEADER_SZ..] == b[HEADER_SZ..][RPC_HEADER_SZ - HEADER_SZ..] == req.args;
    ReqHeaderRoundTrip(b, HeaderOf(req));
  }

  /** And what `dispatch` packs is what `got_pdu` reads. */
  lemma ReplyRoundTrip(rep: Rep, b: Bytes)
    requires rep.xid < U32 && IsInt(rep.ret) && RPC_HEADER_SZ <= |b| < U32 / 2
    requires b[HEADER_SZ..HEADER_SZ + 8] == EncReplyHeader(ReplyHeader(FromUnsigned(TI32, rep.xid), rep.ret))
    requires b[RPC_HEADER_SZ..] == rep.body
    ensures RepOf(b) == Some(rep)
  {
    hide EncReplyHeader, DecReplyHeader;
    ReplyHeaderRoundTrip(b, ReplyHeader(FromUnsigned(TI32, rep.xid), rep.ret));
  }

  /** A word depends on its four bytes only. */
  lemma SameWord(b: Bytes, f: Bytes, i: nat)
    requires |f| == |b| && i + 4 <= |b|
    requires forall k | i <= k < i + 4 :: f[k] == b[k]
    ensures GetU32(f, Cur(i, true)) == GetU32(b, Cur(i, true)) && GetU32(b, Cur(i, true)).1 == Cur(i + 4, true)
  {
    U32At(b, i);
    U32At(f, i);
  }

  lemma SameReqHeader(b: Bytes, f: Bytes)
    requires |f| == |b| >= RPC_HEADER_SZ
    requires forall k | HEADER_SZ <= k < RPC_HEADER_SZ :: f[k] == b[k]
    ensures DecReqHeader(f, true) == DecReqHeader(b, true)
  {
    hide GetU32, FromUnsigned;
    SameWord(b, f, 4);
    SameWord(b, f, 8);
    SameWord(b, f, 12);
    SameWord(b, f, 16);
    SameWord(b, f, 20);
  }

  lemma SameReplyHeader(b: Bytes, f: Bytes)
    requires |f| == |b| >= RPC_HEADER_SZ
    requires forall k | HEADER_SZ <= k < RPC_HEADER_SZ :: f[k] == b[k]
    ensures DecReplyHeader(f, true) == DecReplyHeader(b, true)
  {
    hide GetU32, FromUnsigned;
    SameWord(b, f, 4);
    SameWord(b, f, 8);
  }

  /** Putting the length into the first word of a PDU leaves its message alone. */
  lemma FramingKeepsMessage(b: Bytes)
    requires RPC_HEADER_SZ <= |b|
    ensures ReqOf(Frame(b)) == ReqOf(b) && RepOf(Frame(b)) == RepOf(b)
  {
    var f := Frame(b);
    assert forall i | HEADER_SZ <= i < |b| :: f[i] == b[i];
    assert f[RPC_HEADER_SZ..] == b[RPC_HEADER_SZ..];
    hide Frame, DecReqHeader, DecReplyHeader;
    SameReqHeader(b, f);
    SameReplyHeader(b, f);
  }

  // ---- In place ----

  /** What one call of `dispatch` does before any handler runs: nothing, an answer at once, or the
      NEW branch. */
  datatype Action = Drop | Answer(rep: Rep) | RunHandler(req: Req)

  function Messages(srv: nat, a: Action): set<Msg> {
    if a.Answer? then {Msg(srv, a.rep)} else {}
  }

  lemma EmptyWindowIsNew(xid: nat, xidRep: nat)
    ensures Check([], xid, xidRep).verdict.New?
  {
  }

  class Server {
    const nonce: nat
    var procs: set<nat>
    const rpcs: Rpcs

    constructor (nonce: nat)
      ensures this.nonce == nonce && procs == {BIND} && fresh(rpcs) && rpcs.replyWindow == map[] && rpcs.freed == []
    {
      this.nonce := nonce;
      procs := {BIND};
      var r := new Rpcs();
      rpcs := r;
    }

    /** `dispatch` up to the handler, on the PDU that the connection handed over. `sv` is the part of
        the server's state that belongs to the request's client. A client with nonce 0 has asked for
        no memory: each of its requests is treated as if its window were empty. */
    method Dispatch(pdu: array<Byte>, n: nat, ghost sv: Srv) returns (a: Action)
      requires n <= pdu.Length
      requires ReqOf(pdu[..n]).Some? ==>
        var clt := ReqOf(pdu[..n]).value.cltNonce;
        sv.window == rpcs.Window(clt) && Sorted(sv.window)
      modifies rpcs
      ensures ReqOf(pdu[..n]).None? ==> a == Drop && unchanged(rpcs)
      ensures ReqOf(pdu[..n]).Some? && ReqOf(pdu[..n]).value.cltNonce == 0 ==>
        var req := ReqOf(pdu[..n]).value;
        var (sv', out) := RpcSystem.Dispatch(procs, nonce, Srv([], [], []), req);
        && unchanged(rpcs) && out == Messages(nonce, a)
        && sv'.execs == (if a == RunHandler(req) then [Exec(req, Running)] else [])
        && (a.RunHandler? ==> a.req == req)
      ensures ReqOf(pdu[..n]).Some? && ReqOf(pdu[..n]).value.cltNonce != 0 ==>
        var req := ReqOf(pdu[..n]).value;
        var (sv', out) := RpcSystem.Dispatch(procs, nonce, sv, req);
        && rpcs.Window(req.cltNonce) == sv'.window
        && sv.freed <= sv'.freed && rpcs.freed == old(rpcs.freed) + sv'.freed[|sv.freed|..]
        && out == Messages(nonce, a)
        && sv'.execs == sv.execs + (if a == RunHandler(req) then [Exec(req, Running)] else [])
        && (a.RunHandler? ==> a.req == req)
        && forall c | c != req.cltNonce :: rpcs.Window(c) == old(rpcs.Window(c))
    {
      hide DecReqHeader, Check, TrimmedBufs;
      var un := new UnmarshallBuf.FromBuf(pdu, n);
      var h := un.UnpackReqHeader();
      ReqHeaderReadIff(pdu[..n]);
      if !un.ok {
        return Drop;
      }
      var req := Req(Unsigned(h.xid), Unsigned(h.prc), h.cltNonce, h.srvNonce, Unsigned(h.xidRep), pdu[RPC_HEADER_SZ..n]);
      assert ReqOf(pdu[..n]) == Some(req);
      if req.srvNonce != 0 && req.srvNonce != nonce {
        return Answer(Rep(req.xid, OLDSRV_FAILURE, []));
      }
      if req.proc !in procs {
        return Drop;
      }
      if req.cltNonce == 0 {
        EmptyWindowIsNew(req.xid, req.xidRep);
        return RunHandler(req);
      }
      var stat := rpcs.CheckDuplicateAndUpdate(req.cltNonce, req.xid, req.xidRep);
      match stat
      case New => a := RunHandler(req);
      case InProgress => a := Drop;
      case Done(buf) => a := Answer(buf.rep);
      case Forgotten => a := Answer(Rep(req.xid, ATMOSTONCE_FAILURE, []));
    }

    /** The rest of the NEW branch, once the handler of execution i has returned; the reply to a client
        with nonce 0 is sent and not stored. */
    method Complete(clt: nat, i: nat, ghost sv: Srv, rep: Rep) returns (a: Action)
      requires sv.window == rpcs.Window(clt) && i < |sv.execs|
      requires sv.execs[i].phase == Returned(rep) && sv.execs[i].req.xid == rep.xid
      modifies rpcs
      ensures clt == 0 ==> unchanged(rpcs)
      ensures clt != 0 ==> rpcs.Window(clt) == StoreAndSend(sv, i).window && rpcs.freed == old(rpcs.freed)
      ensures a == Answer(rep)
      ensures forall c | c != clt :: rpcs.Window(c) == old(rpcs.Window(c))
    {
      if clt > 0 {
        rpcs.StoreReply(clt, rep.xid, Buffer(i, rep));
      }
      a := Answer(rep);
    }
  }

  /** `rpcc::got_pdu`: a PDU too short for a reply header changes nothing, and every PDU is taken. */
  method GotReplyPdu(cl: Rpcc, pdu: array<Byte>, n: nat) returns (taken: bool)
    requires cl.Valid() && n <= pdu.Length
    modifies cl
    ensures cl.Valid() && taken
    ensures cl.State() == match RepOf(pdu[..n]) case None => old(cl.State()) case Some(rep) => GotPdu(old(cl.State()), rep)
  {
    hide DecReplyHeader;
    var un := new UnmarshallBuf.FromBuf(pdu, n);
    var h := un.UnpackReplyHeader();
    if !un.ok {
      return true;
    }
    var body := if n < RPC_HEADER_SZ then [] else pdu[RPC_HEADER_SZ..n];
    assert body == if n < RPC_HEADER_SZ then [] else pdu[..n][RPC_HEADER_SZ..];
    cl.OnReply(Rep(Unsigned(h.xid), h.ret, body));
    taken := true;
  }
}
