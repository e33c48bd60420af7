/** One end of a TCP connection (rpc/connection.h:21-69, rpc/connection.cc:122-295): the sender's and
    the reader's buffers and what each callback or stretch of `send` does to them between taking the
    mutex and giving it up. The outcomes of `read` and `write` are parameters. */
module Connection {
  import opened RpcTypes
  import opened Codec

  const MAX_PDU: int := 10 * 0x100000

  datatype WriteOut = Wrote(n: nat) | WouldBlock | WriteError

  /** `Got` is a positive return; `ReadAgain` and `ReadFail` are returns of 0 or less with `errno`
      equal to EAGAIN or not. */
  datatype ReadOut = Got(n: nat) | ReadAgain | ReadFail

  /** `wpdu_`. A failed write leaves `solong` at -1 and `sz` at 0. */
  datatype Wbuf = Wbuf(buf: Option<Bytes>, sz: int, solong: int)

  /** `rpdu_`; `buf` holds the `solong` bytes read so far. */
  datatype Rbuf = Rbuf(buf: Option<Bytes>, sz: int)

  datatype Conn = Conn(dead: bool, waiters: nat, w: Wbuf, r: Rbuf)

  /** How a stretch of `send` ends: asleep on `send_wait_`, asleep on `send_complete_`, with the mutex
      dropped around `block_remove_fd` after a failed write, or back at the caller. */
  datatype SendResult = Blocks | Waits | Fails | Returns(ok: bool)

  const NO_WRITE := Wbuf(None, 0, 0)
  const NO_READ := Rbuf(None, 0)

  function NewConn(): Conn {
    Conn(false, 0, NO_WRITE, NO_READ)
  }

  /** A PDU as the wire carries it: its first word is its own length. */
  function Frame(b: Bytes): (f: Bytes)
    requires HEADER_SZ <= |b|
    ensures |f| == |b|
  {
    EncU32(|b|) + b[HEADER_SZ..]
  }

  /** What the marshaller hands to `send`. */
  predicate IsPdu(b: Bytes) {
    RPC_HEADER_SZ <= |b| < U32 / 2
  }

  // ---- Writing ----

  predicate WbufOk(w: Wbuf) {
    match w.buf
    case None => w == NO_WRITE
    case Some(b) => (w.sz == 0 && w.solong == -1) || (IsPdu(b) && w.sz == |b| && 0 <= w.solong <= w.sz)
  }

  /** A PDU is in the buffer and no write of it has failed. */
  predicate Writing(w: Wbuf) {
    w.buf.Some? && IsPdu(w.buf.value) && w.sz == |w.buf.value| && 0 <= w.solong <= w.sz
  }

  predicate WriteOutOk(w: Wbuf, io: WriteOut) {
    io.Wrote? ==> io.n <= w.sz - w.solong
  }

  /** `writepdu`: the new buffer, the bytes that reached the socket, and its result. */
  function WritePdu(w: Wbuf, io: WriteOut): (Wbuf, Bytes, bool)
    requires Writing(w) && WriteOutOk(w, io)
  {
    if w.solong == w.sz then (w, [], true)
    else
      var b := if w.solong == 0 then Frame(w.buf.value) else w.buf.value;
      match io
      case Wrote(n) => (Wbuf(Some(b), w.sz, w.solong + n), b[w.solong..w.solong + n], true)
      case WouldBlock => (w.(buf := Some(b)), [], true)
      case WriteError => (Wbuf(Some(b), 0, -1), [], false)
  }

  /** `send` from the test of its first loop on; the count of waiters is kept by the callers. */
  function TryWrite(c: Conn, b: Bytes, io: WriteOut): (Conn, Bytes, SendResult)
    requires IsPdu(b) && WriteOutOk(Wbuf(Some(b), |b|, 0), io)
  {
    if c.dead then (c, [], Returns(false))
    else if c.w.buf.Some? then (c, [], Blocks)
    else
      var (w, out, ok) := WritePdu(Wbuf(Some(b), |b|, 0), io);
      if !ok then (c.(dead := true, w := w), out, Fails)
      else if w.solong == w.sz then (c.(w := NO_WRITE), out, Returns(true))
      else (c.(w := w), out, Waits)
  }

  /** `send` by a new caller. */
  function SendEnter(c: Conn, b: Bytes, io: WriteOut): (Conn, Bytes, SendResult)
    requires IsPdu(b) && WriteOutOk(Wbuf(Some(b), |b|, 0), io)
  {
    var (c1, out, r) := TryWrite(c, b, io);
    (if r.Blocks? then c1.(waiters := c.waiters + 1) else c1, out, r)
  }

  /** `send` by a caller that comes back from `send_wait_`. */
  function SendRetry(c: Conn, b: Bytes, io: WriteOut): (Conn, Bytes, SendResult)
    requires IsPdu(b) && WriteOutOk(Wbuf(Some(b), |b|, 0), io) && c.waiters > 0
  {
    var (c1, out, r) := TryWrite(c, b, io);
    (if r.Blocks? then c1 else c1.(waiters := c.waiters - 1), out, r)
  }

  /** `send` coming back from `send_complete_` or from `block_remove_fd`. */
  function SendResume(c: Conn): (Conn, SendResult) {
    if !c.dead && 0 <= c.w.solong < c.w.sz then (c, Waits)
    else (c.(w := NO_WRITE), Returns(!c.dead && c.w.solong == c.w.sz))
  }

  /** `write_cb`, which asserts that the connection lives; the last result is whether it signals. */
  function WriteCb(c: Conn, io: WriteOut): (Conn, Bytes, bool)
    requires !c.dead && WbufOk(c.w) && WriteOutOk(c.w, io)
  {
    if c.w.sz == 0 then (c, [], false)
    else
      var (w, out, ok) := WritePdu(c.w, io);
      (c.(w := w, dead := !ok), out, !ok || w.solong >= w.sz)
  }

  // ---- Reading ----

  function HeaderSize(h: Bytes): int
    requires |h| == HEADER_SZ
  {
    FromUnsigned(TI32, GetU32(h, Cur(0, true)).0)
  }

  function ReadSoFar(r: Rbuf): (n: nat) {
    if r.buf.Some? then |r.buf.value| else 0
  }

  /** The header read asserts that `errno` is not EAGAIN. */
  predicate HeaderOutOk(avail: nat, hdr: ReadOut) {
    match hdr
    case Got(n) => 0 < n <= HEADER_SZ && n <= avail
    case ReadAgain => false
    case ReadFail => true
  }

  predicate BodyOutOk(r: Rbuf, avail: nat, body: ReadOut) {
    body.Got? ==> 0 < body.n <= r.sz - ReadSoFar(r) && body.n <= avail
  }

  function ReadBody(r: Rbuf, input: Bytes, body: ReadOut): (Rbuf, Bytes, bool)
    requires r.buf.Some? && BodyOutOk(r, |input|, body)
  {
    match body
    case Got(n) => (r.(buf := Some(r.buf.value + input[..n])), input[n..], true)
    case ReadAgain => (r, input, true)
    case ReadFail => (NO_READ, input, false)
  }

  /** What the header read leaves: the buffer, the rest of the input, and whether to go on. */
  function ReadHeader(input: Bytes, hdr: ReadOut): (Rbuf, Bytes, bool)
    requires HeaderOutOk(|input|, hdr)
  {
    match hdr
    case ReadFail => (NO_READ, input, false)
    case Got(n) =>
      if n != HEADER_SZ || HeaderSize(input[..n]) > MAX_PDU then (NO_READ, input[n..], false)
      else (Rbuf(Some(input[..n]), HeaderSize(input[..n])), input[n..], true)
  }

  predicate ReadOutOk(r: Rbuf, input: Bytes, hdr: ReadOut, body: ReadOut) {
    if r.sz == 0 then
      && HeaderOutOk(|input|, hdr)
      && var (r1, rest, ok) := ReadHeader(input, hdr);
      ok ==> BodyOutOk(r1, |rest|, body)
    else r.buf.Some? && BodyOutOk(r, |input|, body)
  }

  /** `readpdu` on the bytes `input` that the peer sent and nobody has read yet. */
  function ReadPdu(r: Rbuf, input: Bytes, hdr: ReadOut, body: ReadOut): (Rbuf, Bytes, bool)
    requires ReadOutOk(r, input, hdr, body)
  {
    if r.sz == 0 then
      var (r1, rest, ok) := ReadHeader(input, hdr);
      if ok then ReadBody(r1, rest, body) else (r1, rest, false)
    else ReadBody(r, input, body)
  }

  /** A header read that lets `readpdu` go on has allocated a buffer. */
  lemma HeaderKeepsBuffer(input: Bytes, hdr: ReadOut, body: ReadOut)
    requires ReadOutOk(NO_READ, input, hdr, body)
    ensures HeaderOutOk(|input|, hdr)
    ensures ReadHeader(input, hdr).2 ==> ReadHeader(input, hdr).0.buf.Some?
  {
  }

  predicate NeedsBytes(r: Rbuf) {
    r.buf.None? || ReadSoFar(r) < r.sz
  }

  /** `read_cb`; `takes` is what `got_pdu` answers when it is asked. The third result is the PDU that
      was handed over. */
  function ReadCb(c: Conn, input: Bytes, hdr: ReadOut, body: ReadOut, takes: bool): (Conn, Bytes, Option<Bytes>)
    requires !c.dead && NeedsBytes(c.r) ==> ReadOutOk(c.r, input, hdr, body)
  {
    if c.dead then (c, input, None)
    else
      var (r, rest, ok) := if NeedsBytes(c.r) then ReadPdu(c.r, input, hdr, body) else (c.r, input, true);
      if r.buf.Some? && r.sz == |r.buf.value| && takes then (c.(r := NO_READ, dead := !ok), rest, r.buf)
      else (c.(r := r, dead := !ok), rest, None)
  }

  // ---- In place ----

  /** The size of the buffer for a PDU of announced size sz. The source asks for sz + 4 bytes; below 4
      that is too little for the header that it stores next, or fails, and here the header still fits. */
  function Allocated(sz: int): (n: nat)
    ensures n >= HEADER_SZ
  {
    if sz < 0 then HEADER_SZ else sz + HEADER_SZ
  }

  /** `charbuf` objects hold the whole allocation; `solong` says how much of it is done. */
  class ConnObject {
    var dead: bool
    var waiters: nat
    var wbuf: array?<Byte>
    var wsz: int
    var wsolong: int
    var rbuf: array?<Byte>
    var rsz: int
    var rsolong: nat

    ghost predicate Valid()
      reads this
    {
      && (wbuf != null ==> wbuf.Length < U32 / 2)
      && (rbuf == null ==> rsz == 0)
      && (rbuf != null ==> wbuf != rbuf && HEADER_SZ <= rsolong <= rbuf.Length && rbuf.Length == Allocated(rsz))
    }

    ghost function State(): Conn
      reads this, wbuf, rbuf
    {
      Conn(dead, waiters,
           Wbuf(if wbuf == null then None else Some(wbuf[..]), wsz, wsolong),
           Rbuf(if rbuf == null || rsolong > rbuf.Length then None else Some(rbuf[..rsolong]), rsz))
    }

    constructor ()
      ensures Valid() && State() == NewConn()
    {
      dead, waiters := false, 0;
      wbuf, wsz, wsolong := null, 0, 0;
      rbuf, rsz, rsolong := null, 0, 0;
    }

    /** Stores the length in the PDU's first word. */
    static method PutLength(a: array<Byte>, sz: nat)
      requires HEADER_SZ <= a.Length == sz
      modifies a
      ensures a[..] == Frame(old(a[..]))
    {
      var h := EncU32(sz);
      a[0], a[1], a[2], a[3] := h[0], h[1], h[2], h[3];
      assert a[..] == h + old(a[..])[HEADER_SZ..];
    }

    method WritePduOnce(io: WriteOut) returns (out: Bytes, ok: bool)
      requires Valid() && Writing(State().w) && WriteOutOk(State().w, io)
      modifies this`wsz, this`wsolong, wbuf
      ensures Valid()
      ensures (State().w, out, ok) == WritePdu(old(State().w), io)
      ensures State().r == old(State().r)
    {
      if wsolong == wsz {
        return [], true;
      }
      if wsolong == 0 {
        PutLength(wbuf, wsz);
      }
      match io
      case Wrote(n) =>
        out := wbuf[wsolong..wsolong + n];
        wsolong := wsolong + n;
        ok := true;
      case WouldBlock =>
        out, ok := [], true;
      case WriteError =>
        wsolong, wsz := -1, 0;
        out, ok := [], false;
    }

    /** The part of `send` after its first loop has let the caller through, or has not. */
    method Try(b: array<Byte>, io: WriteOut) returns (out: Bytes, res: SendResult)
      requires Valid() && b != rbuf && IsPdu(b[..]) && WriteOutOk(Wbuf(Some(b[..]), b.Length, 0), io)
      modifies this`dead, this`wbuf, this`wsz, this`wsolong, b
      ensures Valid()
      ensures (State(), out, res) == TryWrite(old(State()), old(b[..]), io)
    {
      if dead {
        return [], Returns(false);
      }
      if wbuf != null {
        return [], Blocks;
      }
      wbuf, wsz, wsolong := b, b.Length, 0;
      assert State().w == Wbuf(Some(old(b[..])), |old(b[..])|, 0);
      var ok;
      out, ok := WritePduOnce(io);
      if !ok {
        dead := true;
        return out, Fails;
      }
      if wsolong == wsz {
        wbuf, wsz, wsolong := null, 0, 0;
        return out, Returns(true);
      }
      res := Waits;
    }

    method Send(b: array<Byte>, io: WriteOut) returns (out: Bytes, res: SendResult)
      requires Valid() && b != rbuf && IsPdu(b[..]) && WriteOutOk(Wbuf(Some(b[..]), b.Length, 0), io)
      modifies this, b
      ensures Valid()
      ensures (State(), out, res) == SendEnter(old(State()), old(b[..]), io)
    {
      waiters := waiters + 1;
      out, res := Try(b, io);
      if !res.Blocks? {
        waiters := waiters - 1;
      }
    }

    method SendAgain(b: array<Byte>, io: WriteOut) returns (out: Bytes, res: SendResult)
      requires Valid() && waiters > 0
      requires b != rbuf && IsPdu(b[..]) && WriteOutOk(Wbuf(Some(b[..]), b.Length, 0), io)
      modifies this, b
      ensures Valid()
      ensures (State(), out, res) == SendRetry(old(State()), old(b[..]), io)
    {
      out, res := Try(b, io);
      if !res.Blocks? {
        waiters := waiters - 1;
      }
    }

    method SendDone() returns (res: SendResult)
      requires Valid()
      modifies this
      ensures Valid()
      ensures (State(), res) == SendResume(old(State()))
    {
      if !dead && 0 <= wsolong < wsz {
        return Waits;
      }
      res := Returns(!dead && wsolong == wsz);
      wsolong, wsz := 0, 0;
      wbuf := null;
    }

    method OnWritable(io: WriteOut) returns (out: Bytes, signal: bool)
      requires Valid() && !dead && WbufOk(State().w) && WriteOutOk(State().w, io)
      modifies this, wbuf
      ensures Valid()
      ensures (State(), out, signal) == WriteCb(old(State()), io)
    {
      if wsz == 0 {
        return [], false;
      }
      var ok;
      out, ok := WritePduOnce(io);
      if !ok {
        dead := true;
      } else if wsolong < wsz {
        return out, false;
      }
      signal := true;
    }

    /** Hands a complete PDU over, if it is taken. */
    method Offer(takes: bool) returns (pdu: Option<Bytes>)
      requires rbuf != null && HEADER_SZ <= rsolong <= rbuf.Length
      modifies this`rbuf, this`rsz, this`rsolong
      ensures pdu == if takes && old(rsz == rsolong) then old(State().r.buf) else None
      ensures if old(rsz == rsolong) && takes then State().r == NO_READ && rbuf == null
              else rbuf == old(rbuf) && State().r == old(State().r) && rsolong == old(rsolong)
      ensures State().w == old(State().w)
    {
      pdu := None;
      if rsz == rsolong {
        if takes {
          pdu := Some(rbuf[..rsolong]);
          rbuf, rsz, rsolong := null, 0, 0;
        }
      }
    }

    /** `read` into the buffer at offset `rsolong`. */
    method Fill(input: Bytes)
      requires Valid() && rbuf != null && rsolong + |input| <= rbuf.Length
      modifies this`rsolong, rbuf
      ensures Valid() && rsolong == old(rsolong) + |input|
      ensures rbuf[..rsolong] == old(rbuf[..rsolong]) + input
    {
      var i := 0;
      while i < |input|
        invariant 0 <= i <= |input| && rsolong == old(rsolong)
        invariant rbuf[..rsolong + i] == old(rbuf[..rsolong]) + input[..i]
      {
        rbuf[rsolong + i] := input[i];
        i := i + 1;
      }
      rsolong := rsolong + |input|;
    }

    /** The first half of `readpdu`: reads the length word and allocates. */
    method ReadHeaderOnce(input: Bytes, hdr: ReadOut) returns (rest: Bytes, ok: bool)
      requires Valid() && rbuf == null && HeaderOutOk(|input|, hdr)
      modifies this`rbuf, this`rsz, this`rsolong
      ensures Valid() && (rbuf == null || fresh(rbuf))
      ensures (State().r, rest, ok) == ReadHeader(input, hdr)
      ensures State().w == old(State().w)
    {
      hide HeaderSize;
      if hdr.ReadFail? {
        return input, false;
      }
      var sz1 := input[..hdr.n];
      rest := input[hdr.n..];
      if hdr.n != HEADER_SZ {
        return rest, false;
      }
      var sz := HeaderSize(sz1);
      if sz > MAX_PDU {
        return rest, false;
      }
      rsz := sz;
      rbuf := new Byte[Allocated(sz)];
      rbuf[0], rbuf[1], rbuf[2], rbuf[3] := sz1[0], sz1[1], sz1[2], sz1[3];
      rsolong := HEADER_SZ;
      assert rbuf[..HEADER_SZ] == sz1;
      ok := true;
    }

    /** The second half: reads as much of the rest as comes. */
    method ReadBodyOnce(input: Bytes, body: ReadOut) returns (rest: Bytes, ok: bool)
      requires Valid() && rbuf != null && BodyOutOk(State().r, |input|, body)
      modifies this`rbuf, this`rsz, this`rsolong, rbuf
      ensures Valid() && (rbuf == old(rbuf) || rbuf == null)
      ensures (State().r, rest, ok) == ReadBody(old(State().r), input, body)
      ensures State().w == old(State().w)
    {
      rest := input;
      match body
      case Got(n) =>
        Fill(input[..n]);
        rest := input[n..];
        ok := true;
      case ReadAgain =>
        ok := true;
      case ReadFail =>
        rbuf, rsz, rsolong := null, 0, 0;
        ok := false;
    }

    method ReadPduOnce(input: Bytes, hdr: ReadOut, body: ReadOut) returns (rest: Bytes, ok: bool)
      requires Valid() && ReadOutOk(State().r, input, hdr, body)
      requires rbuf == null || rsolong < rsz
      modifies this`rbuf, this`rsz, this`rsolong, rbuf
      ensures Valid()
      ensures (State().r, rest, ok) == ReadPdu(old(State().r), input, hdr, body)
      ensures State().w == old(State().w)
      ensures rbuf == old(rbuf) || rbuf == null || fresh(rbuf)
    {
      hide ReadHeader, ReadBody, HeaderOutOk, BodyOutOk;
      rest, ok := input, true;
      if rsz == 0 {
        HeaderKeepsBuffer(input, hdr, body);
        rest, ok := ReadHeaderOnce(input, hdr);
      }
      if ok {
        rest, ok := ReadBodyOnce(rest, body);
      }
    }

    /** The first half of `read_cb`: reads, unless a complete PDU is still waiting. */
    method Pull(input: Bytes, hdr: ReadOut, body: ReadOut) returns (rest: Bytes)
      requires Valid() && !dead
      requires NeedsBytes(State().r) ==> ReadOutOk(State().r, input, hdr, body)
      modifies this, rbuf
      ensures Valid()
      ensures var c := old(State());
        var (r, left, ok) := if NeedsBytes(c.r) then ReadPdu(c.r, input, hdr, body) else (c.r, input, true);
        State() == c.(r := r, dead := !ok) && rest == left
    {
      hide HeaderSize, ReadPdu, ReadOutOk, HeaderOutOk, BodyOutOk;
      rest := input;
      var succ := true;
      if rbuf == null || rsolong < rsz {
        rest, succ := ReadPduOnce(input, hdr, body);
      }
      if !succ {
        dead := true;
      }
    }

    method OnReadable(input: Bytes, hdr: ReadOut, body: ReadOut, takes: bool)
      returns (rest: Bytes, pdu: Option<Bytes>)
      requires Valid()
      requires !dead && NeedsBytes(State().r) ==> ReadOutOk(State().r, input, hdr, body)
      modifies this, rbuf
      ensures Valid()
      ensures (State(), rest, pdu) == ReadCb(old(State()), input, hdr, body, takes)
    {
      hide HeaderSize, ReadPdu, ReadOutOk, HeaderOutOk, BodyOutOk;
      rest, pdu := input, None;
      if dead {
        return;
      }
      rest := Pull(input, hdr, body);
      if rbuf != null {
        pdu := Offer(takes);
      }
    }
  }
}
