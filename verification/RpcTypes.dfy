/** Messages and constants shared by the two halves of the RPC library (rpc/rpc.h, rpc/marshall.h), and
    the few notions that several machines use. */
module RpcTypes {
  type Byte = n: nat | n < 256
  type Bytes = seq<Byte>

  datatype Option<+T> = None | Some(value: T)

  const BIND: nat := 1

  /** The first word of a PDU is its length; the request and reply headers follow it. */
  const HEADER_SZ: nat := 4
  const RPC_HEADER_SZ: nat := 24

  const TIMEOUT_FAILURE: int := -1
  const UNMARSHAL_ARGS_FAILURE: int := -2
  const ATMOSTONCE_FAILURE: int := -4
  const OLDSRV_FAILURE: int := -5
  const BIND_FAILURE: int := -6
  const CANCEL_FAILURE: int := -7

  /** A request PDU: the five header words and the marshalled arguments. */
  datatype Req = Req(xid: nat, proc: nat, cltNonce: nat, srvNonce: nat, xidRep: nat, args: Bytes)

  /** A reply PDU: the two header words and the marshalled result. */
  datatype Rep = Rep(xid: nat, ret: int, body: Bytes)

  /** What `dispatch` asserts about a handler's return code (rpc/rpc.cc:565-566). */
  predicate HandlerRet(ret: int) {
    ret >= 0 || ret == UNMARSHAL_ARGS_FAILURE
  }

  /** No number occurs twice. */
  ghost predicate NoDup(xs: seq<nat>) {
    forall i, j | 0 <= i < j < |xs| :: xs[i] != xs[j]
  }
}
