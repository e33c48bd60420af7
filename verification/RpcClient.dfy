/** The client half of the RPC library: `rpcc` (rpc/rpc.cc:101-382). `Client` is the value of its
    fields, the functions are its critical sections, and class `Rpcc` carries them out in place. */
module RpcClient {
  import opened RpcTypes
  import opened XidWindow

  /** A waiting call: the request it packed once, and the reply slot `call1` sleeps on. */
  datatype Caller = Caller(req: Req, done: bool, intret: int, body: Bytes)

  /** What `call1` gives back. */
  datatype Outcome = Outcome(ret: int, body: Bytes)

  datatype Client = Client(
    cltNonce: nat,
    bindDone: bool,
    srvNonce: nat,
    nextXid: nat,
    calls: map<nat, Caller>,
    repWindow: seq<nat>,
    destroyWait: bool)

  datatype StartResult = Refused(ret: int) | Started(client: Client, req: Req)

  function NewClient(cltNonce: nat): Client {
    Client(cltNonce, false, 0, 1, map[], [0], false)
  }

  /** First critical section of `call1`: refuse, or take an xid and pack the header. */
  function StartCall(cl: Client, proc: nat, args: Bytes): StartResult
    requires |cl.repWindow| > 0
  {
    if (proc != BIND && !cl.bindDone) || (proc == BIND && cl.bindDone) then Refused(BIND_FAILURE)
    else if cl.destroyWait then Refused(CANCEL_FAILURE)
    else
      var req := Req(cl.nextXid, proc, cl.cltNonce, cl.srvNonce, cl.repWindow[0], args);
      Started(cl.(nextXid := cl.nextXid + 1, calls := cl.calls[cl.nextXid := Caller(req, false, 0, [])]), req)
  }

  /** True iff the next `got_pdu` for this xid fills the slot of a waiting call. */
  predicate Awaits(cl: Client, xid: nat) {
    xid in cl.calls && !cl.calls[xid].done
  }

  function GotPdu(cl: Client, rep: Rep): (r: Client)
    requires |cl.repWindow| > 0
  {
    var calls :=
      if Awaits(cl, rep.xid)
      then cl.calls[rep.xid := cl.calls[rep.xid].(done := true, intret := rep.ret, body := rep.body)]
      else cl.calls;
    cl.(repWindow := Report(cl.repWindow, rep.xid), calls := calls)
  }

  function Cancelled(ca: Caller): Caller {
    ca.(done := true, intret := CANCEL_FAILURE)
  }

  function Cancel(cl: Client): Client {
    cl.(calls := map x | x in cl.calls :: Cancelled(cl.calls[x]),
        destroyWait := cl.destroyWait || cl.calls != map[])
  }

  /** Last critical section of `call1`: leave `calls_`, report the xid, hand back the slot. */
  function FinishCall(cl: Client, xid: nat): (r: (Client, Outcome))
    requires |cl.repWindow| > 0 && xid in cl.calls
  {
    var ca := cl.calls[xid];
    (cl.(calls := cl.calls - {xid}, repWindow := Report(cl.repWindow, xid)),
     Outcome(if ca.done then ca.intret else TIMEOUT_FAILURE, ca.body))
  }

  /** `bind` after its call returned 0 with the server's nonce. */
  function BindDone(cl: Client, srvNonce: nat): Client {
    cl.(bindDone := true, srvNonce := srvNonce)
  }

  class Rpcc {
    const cltNonce: nat
    var bindDone: bool
    var srvNonce: nat
    var xid: nat
    var calls: map<nat, Caller>
    var xidRepWindow: seq<nat>
    var destroyWait: bool

    ghost predicate Valid()
      reads this
    {
      |xidRepWindow| > 0 && Nondecreasing(xidRepWindow)
    }

    function State(): Client
      reads this
    {
      Client(cltNonce, bindDone, srvNonce, xid, calls, xidRepWindow, destroyWait)
    }

    constructor (cltNonce: nat)
      ensures Valid() && State() == NewClient(cltNonce)
    {
      this.cltNonce := cltNonce;
      bindDone, srvNonce, xid, calls, xidRepWindow, destroyWait := false, 0, 1, map[], [0], false;
    }

    /** `update_xid_rep`: insert the xid where it belongs, then compress. */
    method UpdateXidRep(x: nat)
      requires Valid()
      modifies this`xidRepWindow
      ensures Valid()
      ensures xidRepWindow == Report(old(xidRepWindow), x)
    {
      if x <= xidRepWindow[0] { return; }
      InsertXid(x);
      InsertKeepsOrder(old(xidRepWindow), x);
      CompressXids();
    }

    method InsertXid(x: nat)
      modifies this`xidRepWindow
      ensures xidRepWindow == Insert(old(xidRepWindow), x)
    {
      var it := 0;
      while it < |xidRepWindow|
        invariant 0 <= it <= |xidRepWindow|
        invariant xidRepWindow == old(xidRepWindow)
        invariant forall j | 0 <= j < it :: xidRepWindow[j] <= x
      {
        if xidRepWindow[it] > x {
          InsertAt(xidRepWindow, x, it);
          xidRepWindow := xidRepWindow[..it] + [x] + xidRepWindow[it..];
          return;
        }
        it := it + 1;
      }
      InsertAt(xidRepWindow, x, it);
      xidRepWindow := xidRepWindow + [x];
    }

    /** The compress loop pops only elements in front of its iterator: what the iterator points at,
        and all that follows, stays in the list. */
    method CompressXids()
      requires Valid()
      modifies this`xidRepWindow
      ensures Valid()
      ensures xidRepWindow == Compress(old(xidRepWindow))
    {
      var it := 1;
      while it < |xidRepWindow|
        invariant 0 <= it <= |xidRepWindow| && Valid()
        invariant NoSuccessorBefore(xidRepWindow, it)
        invariant Compress(xidRepWindow) == Compress(old(xidRepWindow))
        decreases |xidRepWindow| - it
      {
        ghost var rest := xidRepWindow[it..];
        while xidRepWindow[0] + 1 == xidRepWindow[it]
          invariant 0 <= it < |xidRepWindow| && Valid()
          invariant xidRepWindow[it..] == rest
          invariant NoSuccessorBefore(xidRepWindow, it)
          invariant Compress(xidRepWindow) == Compress(old(xidRepWindow))
          decreases it
        {
          PopFront(xidRepWindow, it);
          xidRepWindow := xidRepWindow[1..];
          it := it - 1;
        }
        it := it + 1;
      }
    }

    method BeginCall(proc: nat, args: Bytes) returns (refusal: int, req: Req)
      requires Valid()
      modifies this
      ensures Valid()
      ensures match StartCall(old(State()), proc, args)
              case Refused(ret) => refusal == ret && ret < 0 && State() == old(State())
              case Started(cl, r) => refusal == 0 && req == r && State() == cl
    {
      req := Req(0, 0, 0, 0, 0, []);
      if (proc != BIND && !bindDone) || (proc == BIND && bindDone) {
        return BIND_FAILURE, req;
      }
      if destroyWait {
        return CANCEL_FAILURE, req;
      }
      req := Req(xid, proc, cltNonce, srvNonce, xidRepWindow[0], args);
      calls := calls[xid := Caller(req, false, 0, [])];
      xid := xid + 1;
      refusal := 0;
    }

    method OnReply(rep: Rep)
      requires Valid()
      modifies this
      ensures Valid()
      ensures State() == GotPdu(old(State()), rep)
    {
      UpdateXidRep(rep.xid);
      if rep.xid !in calls { return; }
      var ca := calls[rep.xid];
      if !ca.done {
        calls := calls[rep.xid := ca.(intret := rep.ret, body := rep.body, done := true)];
      }
    }

    /** `cancel` up to its wait, or to its end when no call is outstanding. */
    method CancelCalls() returns (waits: bool)
      modifies this
      ensures State() == Cancel(old(State()))
      ensures waits <==> calls != map[]
    {
      ghost var calls0 := calls;
      var todo := calls.Keys;
      while todo != {}
        invariant todo <= calls.Keys == calls0.Keys
        invariant forall x | x in calls :: calls[x] == if x in todo then calls0[x] else Cancelled(calls0[x])
        invariant unchanged(`bindDone, `srvNonce, `xid, `xidRepWindow, `destroyWait)
        decreases |todo|
      {
        var x :| x in todo;
        var ca := calls[x];
        calls := calls[x := ca.(done := true, intret := CANCEL_FAILURE)];
        todo := todo - {x};
      }
      waits := |calls| > 0;
      if waits {
        destroyWait := true;
      }
      assert calls == map x | x in calls0 :: Cancelled(calls0[x]);
      assert calls0 == map[] <==> |calls| == 0 by {
        assert calls0.Keys == {} <==> |calls0.Keys| == 0;
      }
    }

    /** `cancel` after a return of its wait: it waits again as long as calls are outstanding. */
    method CancelAgain() returns (waits: bool)
      modifies this`destroyWait
      ensures waits <==> calls != map[]
      ensures State() == old(State()).(destroyWait := old(destroyWait) || waits)
    {
      assert calls == map[] <==> |calls| == 0 by {
        assert calls.Keys == {} <==> |calls.Keys| == 0;
      }
      waits := |calls| > 0;
      if waits {
        destroyWait := true;
      }
    }

    /** The end of a call; `signal` tells whether it wakes a thread that waits in `cancel`. */
    method EndCall(x: nat) returns (out: Outcome, signal: bool)
      requires Valid() && x in calls
      modifies this
      ensures Valid()
      ensures (State(), out) == FinishCall(old(State()), x)
      ensures signal == destroyWait
    {
      var ca := calls[x];
      calls := calls - {x};
      UpdateXidRep(x);
      signal := destroyWait;
      out := Outcome(if ca.done then ca.intret else TIMEOUT_FAILURE, ca.body);
    }

    method EndBind(r: nat)
      requires Valid()
      modifies this
      ensures Valid() && State() == BindDone(old(State()), r)
    {
      bindDone := true;
      srvNonce := r;
    }
  }
}
