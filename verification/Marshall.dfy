/** The buffer classes behind the wire format (rpc/marshall.h:15-258, rpc/rpc.cc:714-949): a growing
    output buffer with room for the header in front, and an input buffer with a read position. */
module Marshall {
  import opened RpcTypes
  import opened Codec

  const DEFAULT_RPC_SZ: nat := 1024

  datatype ReqHeader = ReqHeader(xid: int, prc: int, cltNonce: nat, srvNonce: nat, xidRep: int)
  datatype ReplyHeader = ReplyHeader(xid: int, ret: int)

  predicate IsInt(n: int) {
    InRange(TI32, n)
  }

  predicate ReqHeaderOk(h: ReqHeader) {
    IsInt(h.xid) && IsInt(h.prc) && h.cltNonce < U32 && h.srvNonce < U32 && IsInt(h.xidRep)
  }

  predicate ReplyHeaderOk(h: ReplyHeader) {
    IsInt(h.xid) && IsInt(h.ret)
  }

  function EncInt(n: int): (b: Bytes)
    requires IsInt(n)
    ensures |b| == 4
  {
    EncU32(ToUnsigned(TI32, n))
  }

  function EncReqHeader(h: ReqHeader): (b: Bytes)
    requires ReqHeaderOk(h)
    ensures |b| == RPC_HEADER_SZ - HEADER_SZ
  {
    EncInt(h.xid) + EncInt(h.prc) + EncU32(h.cltNonce) + EncU32(h.srvNonce) + EncInt(h.xidRep)
  }

  function EncReplyHeader(h: ReplyHeader): (b: Bytes)
    requires ReplyHeaderOk(h)
    ensures |b| == 8
  {
    EncInt(h.xid) + EncInt(h.ret)
  }

  function GetInt(b: Bytes, c: Cur): (r: (int, Cur))
    ensures IsInt(r.0)
  {
    var (u, c1) := GetU32(b, c);
    (FromUnsigned(TI32, u), c1)
  }

  /** Both header decoders leave the position at the end of the header, whatever they have read. */
  function DecReqHeader(b: Bytes, ok: bool): (r: (ReqHeader, Cur))
    ensures ReqHeaderOk(r.0)
  {
    var (xid, c1) := GetInt(b, Cur(HEADER_SZ, ok));
    var (prc, c2) := GetInt(b, c1);
    var (clt, c3) := GetU32(b, c2);
    var (srv, c4) := GetU32(b, c3);
    var (rep, c5) := GetInt(b, c4);
    (ReqHeader(xid, prc, clt, srv, rep), Cur(RPC_HEADER_SZ, c5.ok))
  }

  function DecReplyHeader(b: Bytes, ok: bool): (r: (ReplyHeader, Cur))
    ensures ReplyHeaderOk(r.0)
  {
    var (xid, c1) := GetInt(b, Cur(HEADER_SZ, ok));
    var (ret, c2) := GetInt(b, c1);
    (ReplyHeader(xid, ret), Cur(RPC_HEADER_SZ, c2.ok))
  }

  /** The arguments of a call, one after the other. */
  ghost predicate AllWellTyped(ts: seq<Ty>, vs: seq<Val>) {
    |ts| == |vs| && forall i | 0 <= i < |ts| :: WellTyped(ts[i], vs[i])
  }

  ghost function EncAll(ts: seq<Ty>, vs: seq<Val>): Bytes
    requires AllWellTyped(ts, vs)
  {
    if ts == [] then [] else Enc(ts[0], vs[0]) + EncAll(ts[1..], vs[1..])
  }

  function DecAll(ts: seq<Ty>, b: Bytes, c: Cur): (seq<Val>, Cur) {
    if ts == [] then ([], c)
    else
      var (v, c1) := Dec(ts[0], b, c);
      var (vs, c2) := DecAll(ts[1..], b, c1);
      ([v] + vs, c2)
  }

  /** `okdone`. */
  predicate OkDone(b: Bytes, c: Cur) {
    c.ok && c.ind == |b|
  }

  // ---- Properties ----

  lemma IntRoundTrip(b: Bytes, i: nat, n: int)
    requires IsInt(n) && At(b, i, EncInt(n))
    ensures GetInt(b, Cur(i, true)) == (n, Cur(i + 4, true))
  {
    U32RoundTrip(b, i, ToUnsigned(TI32, n));
  }

  lemma ReqHeaderRoundTrip(b: Bytes, h: ReqHeader)
    requires ReqHeaderOk(h) && At(b, HEADER_SZ, EncReqHeader(h))
    ensures DecReqHeader(b, true) == (h, Cur(RPC_HEADER_SZ, true))
  {
    hide GetU32, EncInt, EncU32, ToUnsigned, FromUnsigned, GetInt;
    var x, p, c, s, r := EncInt(h.xid), EncInt(h.prc), EncU32(h.cltNonce), EncU32(h.srvNonce), EncInt(h.xidRep);
    AtSplit(b, 4, x + p + c + s, r);
    AtSplit(b, 4, x + p + c, s);
    AtSplit(b, 4, x + p, c);
    AtSplit(b, 4, x, p);
    hide At;
    IntRoundTrip(b, 4, h.xid);
    IntRoundTrip(b, 8, h.prc);
    U32RoundTrip(b, 12, h.cltNonce);
    U32RoundTrip(b, 16, h.srvNonce);
    IntRoundTrip(b, 20, h.xidRep);
  }

  lemma ReplyHeaderRoundTrip(b: Bytes, h: ReplyHeader)
    requires ReplyHeaderOk(h) && At(b, HEADER_SZ, EncReplyHeader(h))
    ensures DecReplyHeader(b, true) == (h, Cur(RPC_HEADER_SZ, true))
  {
    hide GetU32, EncU32, ToUnsigned, FromUnsigned;
    AtSplit(b, 4, EncInt(h.xid), EncInt(h.ret));
    IntRoundTrip(b, 4, h.xid);
    IntRoundTrip(b, 8, h.ret);
  }

  lemma {:induction false} AllRoundTrip(ts: seq<Ty>, vs: seq<Val>, b: Bytes, i: nat)
    requires AllWellTyped(ts, vs) && At(b, i, EncAll(ts, vs))
    ensures DecAll(ts, b, Cur(i, true)) == (vs, Cur(i + |EncAll(ts, vs)|, true))
  {
    hide Dec, Enc, WellTyped;
    if ts != [] {
      var x, y := Enc(ts[0], vs[0]), EncAll(ts[1..], vs[1..]);
      AtSplit(b, i, x, y);
      hide At;
      RoundTrip(ts[0], vs[0], b, i);
      AllRoundTrip(ts[1..], vs[1..], b, i + |x|);
      assert vs == [vs[0]] + vs[1..];
    }
  }

  lemma {:induction false} AllOkIsSticky(ts: seq<Ty>, b: Bytes, c: Cur)
    requires !c.ok
    ensures !DecAll(ts, b, c).1.ok
  {
    if ts != [] {
      OkIsSticky(ts[0], b, c);
      AllOkIsSticky(ts[1..], b, Dec(ts[0], b, c).1);
    }
  }

  lemma {:induction false} AllCut(ts: seq<Ty>, vs: seq<Val>, b: Bytes, i: nat)
    requires AllWellTyped(ts, vs) && CutAt(b, i, EncAll(ts, vs))
    ensures !DecAll(ts, b, Cur(i, true)).1.ok
  {
    hide Dec, Enc, WellTyped;
    var x, y := Enc(ts[0], vs[0]), EncAll(ts[1..], vs[1..]);
    CutSplit(b, i, x, y);
    if |b| < i + |x| {
      CutClearsOk(ts[0], vs[0], b, i);
      AllOkIsSticky(ts[1..], b, Dec(ts[0], b, Cur(i, true)).1);
    } else {
      RoundTrip(ts[0], vs[0], b, i);
      AllCut(ts[1..], vs[1..], b, i + |x|);
    }
  }

  /** A handler's argument check: of all the buffers that agree with an encoding of the arguments as
      far as both go, `okdone` accepts exactly the one that neither stops short nor goes on, and then
      the arguments are the ones encoded. */
  lemma OkDoneIffWhole(ts: seq<Ty>, vs: seq<Val>, b: Bytes, i: nat)
    requires AllWellTyped(ts, vs) && i <= |b| < U32 / 2
    requires b[i..] <= EncAll(ts, vs) || EncAll(ts, vs) <= b[i..]
    ensures var (us, c) := DecAll(ts, b, Cur(i, true));
      && (OkDone(b, c) <==> b[i..] == EncAll(ts, vs))
      && (OkDone(b, c) ==> us == vs)
  {
    hide DecAll;
    var e := EncAll(ts, vs);
    hide EncAll;
    if |b| < i + |e| {
      assert b[i..] == e[..|b| - i];
      AllCut(ts, vs, b, i);
    } else {
      assert b[i..i + |e|] == b[i..][..|e|] == e;
      AllRoundTrip(ts, vs, b, i);
    }
  }

  // ---- One turn of each loop ----

  lemma EncSeqStep(e: Ty, vs: seq<Val>, i: nat, w: Bytes)
    requires i < |vs| && forall x | x in vs :: WellTyped(e, x)
    ensures w + EncSeq(e, vs[i..]) == (w + Enc(e, vs[i])) + EncSeq(e, vs[i + 1..])
  {
    hide Enc, WellTyped;
    assert vs[i..][0] == vs[i] && vs[i..][1..] == vs[i + 1..];
  }

  lemma EncSeqEnd(e: Ty, vs: seq<Val>)
    requires forall x | x in vs :: WellTyped(e, x)
    ensures vs[0..] == vs && EncSeq(e, vs[|vs|..]) == []
  {
  }

  lemma EncPairsStep(k: Ty, e: Ty, ps: seq<Pair>, i: nat, w: Bytes)
    requires i < |ps| && forall p | p in ps :: WellTypedPair(k, e, p)
    ensures w + EncPairs(k, e, ps[i..]) == (w + EncPair(k, e, ps[i])) + EncPairs(k, e, ps[i + 1..])
  {
    hide EncPair, WellTypedPair;
    assert ps[i..][0] == ps[i] && ps[i..][1..] == ps[i + 1..];
  }

  lemma EncPairsEnd(k: Ty, e: Ty, ps: seq<Pair>)
    requires forall p | p in ps :: WellTypedPair(k, e, p)
    ensures ps[0..] == ps && EncPairs(k, e, ps[|ps|..]) == []
  {
  }

  lemma DecSeqStep(e: Ty, n: nat, b: Bytes, c: Cur, vs: seq<Val>)
    requires n > 0
    ensures var (v, c1) := Dec(e, b, c);
      && vs + DecSeq(e, n, b, c).0 == (vs + [v]) + DecSeq(e, n - 1, b, c1).0
      && DecSeq(e, n, b, c).1 == DecSeq(e, n - 1, b, c1).1
  {
    hide Dec;
  }

  lemma DecSeqEnd(e: Ty, b: Bytes, c: Cur, vs: seq<Val>)
    ensures vs + DecSeq(e, 0, b, c).0 == vs && DecSeq(e, 0, b, c).1 == c
  {
  }

  // ---- In place: output ----

  class MarshallBuf {
    var buf: array<Byte>
    var capa: nat
    var ind: nat

    /** Holds whenever one of the operations below is called. */
    ghost predicate Ready()
      reads this
    {
      0 < capa == buf.Length && ind <= capa
    }

    ghost predicate Valid()
      reads this
    {
      Ready() && RPC_HEADER_SZ <= ind
    }

    /** Everything in front of the write position. */
    ghost function Written(): Bytes
      reads this, buf
      requires Ready()
    {
      buf[..ind]
    }

    ghost function Content(): Bytes
      reads this, buf
      requires Valid()
    {
      buf[RPC_HEADER_SZ..ind]
    }

    constructor ()
      ensures Valid() && Content() == [] && fresh(buf) && capa == DEFAULT_RPC_SZ
    {
      buf := new Byte[DEFAULT_RPC_SZ];
      capa := DEFAULT_RPC_SZ;
      ind := RPC_HEADER_SZ;
    }

    /** `realloc` to `n` bytes. */
    method Realloc(n: nat)
      requires Ready() && capa <= n
      modifies this`buf, this`capa
      ensures Ready() && capa == n && fresh(buf) && Written() == old(Written())
    {
      var b := new Byte[n];
      var i := 0;
      while i < ind
        invariant 0 <= i <= ind
        invariant b[..i] == buf[..i]
        modifies b
      {
        b[i] := buf[i];
        i := i + 1;
      }
      buf, capa := b, n;
    }

    method RawByte(x: Byte)
      requires Ready()
      modifies this, buf
      ensures Ready() && Written() == old(Written()) + [x]
      ensures if old(ind < capa) then buf == old(buf) && capa == old(capa) && forall k | ind <= k < capa :: buf[k] == old(buf[k])
              else fresh(buf) && capa == 2 * old(capa)
    {
      if ind >= capa {
        Realloc(2 * capa);
      }
      buf[ind] := x;
      ind := ind + 1;
    }

    /** Doubling is enough when the capacity exceeds the addition, and otherwise adding is. */
    method RawBytes(p: Bytes)
      requires Ready()
      modifies this, buf
      ensures Ready() && Written() == old(Written()) + p
      ensures if old(ind) + |p| <= old(capa) then buf == old(buf) && capa == old(capa)
              else fresh(buf) && capa == if old(capa) > |p| then 2 * old(capa) else old(capa) + |p|
    {
      var was := ind;
      if ind + |p| > capa {
        Realloc(if capa > |p| then 2 * capa else capa + |p|);
      }
      ghost var b, c := buf, capa;
      var i := 0;
      while i < |p|
        invariant 0 <= i <= |p| && Ready() && buf == b && capa == c && ind == was
        invariant buf[..ind + i] == old(Written()) + p[..i]
      {
        buf[ind + i] := p[i];
        i := i + 1;
      }
      ind := ind + |p|;
    }

    method PutU16(u: nat)
      requires Ready()
      modifies this, buf
      ensures Ready() && Written() == old(Written()) + EncU16(u) && (buf == old(buf) || fresh(buf))
    {
      RawByte(u / 256 % 256);
      RawByte(u % 256);
      assert Written() == old(Written()) + EncU16(u);
    }

    /** Big-endian, as `pack` and the unsigned operator both write it. */
    method PutU32(u: nat)
      requires Ready()
      modifies this, buf
      ensures Ready() && Written() == old(Written()) + EncU32(u) && (buf == old(buf) || fresh(buf))
      ensures old(ind) + 4 <= old(capa) ==>
        buf == old(buf) && capa == old(capa) && forall k | ind <= k < capa :: buf[k] == old(buf[k])
    {
      RawByte(u / 0x1000000 % 256);
      RawByte(u / 0x10000 % 256);
      RawByte(u / 0x100 % 256);
      RawByte(u % 256);
      assert Written() == old(Written()) + EncU32(u);
    }

    method PutScalar(t: Ty, u: nat)
      requires Ready() && Scalar(t) && u < Range(t)
      modifies this, buf
      ensures Ready() && Written() == old(Written()) + EncScalar(t, u) && (buf == old(buf) || fresh(buf))
    {
      match t
      case TBool => RawByte(u % 256);
      case TU8 => RawByte(u % 256);
      case TI8 => RawByte(u % 256);
      case TU16 => PutU16(u);
      case TI16 => PutU16(u);
      case TU32 => PutU32(u);
      case TI32 => PutU32(u);
      case TU64 =>
        PutU32(u / U32);
        PutU32(u % U32);
        assert Written() == old(Written()) + EncScalar(t, u);
    }

    /** The `<<` operators. */
    method Put(t: Ty, v: Val)
      requires Ready() && WellTyped(t, v)
      modifies this, buf
      ensures Ready() && Written() == old(Written()) + Enc(t, v) && (buf == old(buf) || fresh(buf))
      decreases v, 1
    {
      if t.TStr? {
        PutU32(|v.s|);
        RawBytes(v.s);
        assert Written() == old(Written()) + (EncU32(|v.s|) + v.s);
      } else if t.TVec? {
        PutU32(|v.vs|);
        PutSeq(t.elem, v.vs);
        assert Written() == old(Written()) + (EncU32(|v.vs|) + EncSeq(t.elem, v.vs));
      } else if t.TMap? {
        PutU32(|v.ps|);
        PutPairs(t.key, t.val, v.ps);
        assert Written() == old(Written()) + (EncU32(|v.ps|) + EncPairs(t.key, t.val, v.ps));
      } else {
        PutScalar(t, ToUnsigned(t, v.n));
      }
    }

    method PutSeq(e: Ty, vs: seq<Val>)
      requires Ready() && forall x | x in vs :: WellTyped(e, x)
      modifies this, buf
      ensures Ready() && Written() == old(Written()) + EncSeq(e, vs) && (buf == old(buf) || fresh(buf))
      decreases vs, 0
    {
      hide Enc, EncSeq, WellTyped;
      EncSeqEnd(e, vs);
      var i := 0;
      while i < |vs|
        invariant 0 <= i <= |vs| && Ready() && (buf == old(buf) || fresh(buf))
        invariant Written() + EncSeq(e, vs[i..]) == old(Written()) + EncSeq(e, vs)
      {
        EncSeqStep(e, vs, i, Written());
        Put(e, vs[i]);
        i := i + 1;
      }
      assert Written() + [] == Written();
    }

    method PutPairs(k: Ty, e: Ty, ps: seq<Pair>)
      requires Ready() && forall p | p in ps :: WellTypedPair(k, e, p)
      modifies this, buf
      ensures Ready() && Written() == old(Written()) + EncPairs(k, e, ps) && (buf == old(buf) || fresh(buf))
      decreases ps, 0
    {
      hide EncPair, EncPairs, WellTypedPair;
      EncPairsEnd(k, e, ps);
      var i := 0;
      while i < |ps|
        invariant 0 <= i <= |ps| && Ready() && (buf == old(buf) || fresh(buf))
        invariant Written() + EncPairs(k, e, ps[i..]) == old(Written()) + EncPairs(k, e, ps)
      {
        EncPairsStep(k, e, ps, i, Written());
        PutPair(k, e, ps[i]);
        i := i + 1;
      }
      assert Written() + [] == Written();
    }

    method PutPair(k: Ty, e: Ty, p: Pair)
      requires Ready() && WellTypedPair(k, e, p)
      modifies this, buf
      ensures Ready() && Written() == old(Written()) + EncPair(k, e, p) && (buf == old(buf) || fresh(buf))
      decreases p, 0
    {
      Put(k, p.k);
      Put(e, p.v);
    }

    /** Writing a header over a finished body: nothing but the header's bytes changes, and the buffer
        never has to grow. */
    method PackReqHeader(h: ReqHeader)
      requires Valid() && ReqHeaderOk(h)
      modifies this, buf
      ensures Valid() && buf == old(buf) && capa == old(capa) && ind == old(ind)
      ensures buf[..] == old(buf[..HEADER_SZ]) + EncReqHeader(h) + old(buf[RPC_HEADER_SZ..])
    {
      hide EncU32, ToUnsigned;
      var savedSz := ind;
      ind := HEADER_SZ;
      PutU32(ToUnsigned(TI32, h.xid));
      PutU32(ToUnsigned(TI32, h.prc));
      PutU32(h.cltNonce);
      PutU32(h.srvNonce);
      PutU32(ToUnsigned(TI32, h.xidRep));
      assert buf[..ind] == old(buf[..HEADER_SZ]) + EncReqHeader(h);
      assert buf[ind..] == old(buf[RPC_HEADER_SZ..]);
      assert buf[..] == buf[..ind] + buf[ind..];
      ind := savedSz;
    }

    method PackReplyHeader(h: ReplyHeader)
      requires Valid() && ReplyHeaderOk(h)
      modifies this, buf
      ensures Valid() && buf == old(buf) && capa == old(capa) && ind == old(ind)
      ensures buf[..] == old(buf[..HEADER_SZ]) + EncReplyHeader(h) + old(buf[HEADER_SZ + 8..])
    {
      hide EncU32, ToUnsigned;
      var savedSz := ind;
      ind := HEADER_SZ;
      PutU32(ToUnsigned(TI32, h.xid));
      PutU32(ToUnsigned(TI32, h.ret));
      assert buf[..ind] == old(buf[..HEADER_SZ]) + EncReplyHeader(h);
      assert buf[ind..] == old(buf[HEADER_SZ + 8..]);
      assert buf[..] == buf[..ind] + buf[ind..];
      ind := savedSz;
    }
  }

  // ---- In place: input ----

  class UnmarshallBuf {
    var buf: array?<Byte>
    var sz: nat
    var ind: nat
    var ok: bool

    ghost predicate Valid()
      reads this
    {
      if buf == null then sz == 0 else sz <= buf.Length
    }

    ghost function Data(): Bytes
      reads this, buf
      requires Valid()
    {
      if buf == null then [] else buf[..sz]
    }

    ghost function Pos(): Cur
      reads this
    {
      Cur(ind, ok)
    }

    constructor Empty()
      ensures Valid() && Data() == [] && Pos() == Cur(0, false)
    {
      buf, sz, ind, ok := null, 0, 0, false;
    }

    constructor FromBuf(b: array<Byte>, n: nat)
      requires n <= b.Length
      ensures Valid() && Data() == b[..n] && Pos() == Cur(0, true) && buf == b
    {
      buf, sz, ind, ok := b, n, 0, true;
    }

    /** Takes the other object's buffer over; what is shorter than a header is not ok. */
    method TakeIn(other: UnmarshallBuf)
      requires Valid() && other.Valid() && other != this
      modifies this, other
      ensures Valid() && other.Valid() && buf == old(other.buf) && Data() == old(other.Data())
      ensures Pos() == Cur(RPC_HEADER_SZ, |Data()| >= RPC_HEADER_SZ)
      ensures other.Data() == [] && other.Pos() == Cur(0, old(other.ok))
    {
      buf, sz := other.buf, other.sz;
      other.sz, other.ind := 0, 0;
      other.buf := null;
      ind := RPC_HEADER_SZ;
      ok := sz >= RPC_HEADER_SZ;
    }

    method RawByte() returns (x: Byte)
      requires Valid()
      modifies this`ind, this`ok
      ensures (x, Pos()) == GetByte(Data(), old(Pos()))
    {
      x := 0;
      if ind >= sz {
        ok := false;
      } else {
        x := buf[ind];
        ind := ind + 1;
      }
    }

    method GetNat16() returns (u: nat)
      requires Valid()
      modifies this`ind, this`ok
      ensures (u, Pos()) == GetU16(Data(), old(Pos()))
    {
      var x1: nat := RawByte();
      var x0: nat := RawByte();
      u := x1 * 256 + x0;
    }

    method GetNat32() returns (u: nat)
      requires Valid()
      modifies this`ind, this`ok
      ensures (u, Pos()) == GetU32(Data(), old(Pos()))
    {
      var x3: nat := RawByte();
      var x2: nat := RawByte();
      var x1: nat := RawByte();
      var x0: nat := RawByte();
      u := x3 * 0x1000000 + x2 * 0x10000 + x1 * 0x100 + x0;
    }

    method GetSigned() returns (n: int)
      requires Valid()
      modifies this`ind, this`ok
      ensures (n, Pos()) == GetInt(Data(), old(Pos()))
    {
      var u := GetNat32();
      n := FromUnsigned(TI32, u);
    }

    method RawBytes(n: nat) returns (s: Bytes)
      requires Valid()
      modifies this`ind, this`ok
      ensures (s, Pos()) == GetBytes(Data(), old(Pos()), n)
    {
      s := [];
      if (ind + n) % U32 > sz {
        ok := false;
      } else {
        if buf != null && ind + n <= sz {
          s := buf[ind..ind + n];
          assert s == Data()[ind..ind + n];
        }
        ind := if ind + n <= sz then ind + n else (ind + n) % U32;
      }
    }

    method GetScalarValue(t: Ty) returns (u: nat)
      requires Valid() && Scalar(t)
      modifies this`ind, this`ok
      ensures (u, Pos()) == GetScalar(t, Data(), old(Pos()))
    {
      match t
      case TBool =>
        var x := RawByte();
        u := if x != 0 then 1 else 0;
      case TU8 => u := RawByte();
      case TI8 => u := RawByte();
      case TU16 => u := GetNat16();
      case TI16 => u := GetNat16();
      case TU32 => u := GetNat32();
      case TI32 => u := GetNat32();
      case TU64 =>
        var h := GetNat32();
        var l := GetNat32();
        u := h * U32 + l;
    }

    /** The `>>` operators, into a fresh variable. */
    method Get(t: Ty) returns (v: Val)
      requires Valid()
      modifies this`ind, this`ok
      ensures (v, Pos()) == Dec(t, Data(), old(Pos()))
      decreases t, 1
    {
      if t.TStr? {
        var n := GetNat32();
        v := VStr([]);
        if ok {
          var s := RawBytes(n);
          v := VStr(s);
        }
      } else if t.TVec? {
        var n := GetNat32();
        var vs := GetVec(t.elem, n);
        v := VVec(vs);
      } else if t.TMap? {
        var n := GetNat32();
        var ps := GetMap(t.key, t.val, n);
        v := VMap(ps);
      } else {
        var u := GetScalarValue(t);
        v := VInt(FromUnsigned(t, u));
      }
    }

    method GetVec(e: Ty, n: nat) returns (vs: seq<Val>)
      requires Valid()
      modifies this`ind, this`ok
      ensures (vs, Pos()) == DecSeq(e, n, Data(), old(Pos()))
      decreases e, 2
    {
      hide Dec, DecSeq;
      vs := [];
      var i := 0;
      ghost var b, all := Data(), DecSeq(e, n, Data(), Pos());
      while i < n
        invariant 0 <= i <= n && Data() == b
        invariant vs + DecSeq(e, n - i, b, Pos()).0 == all.0 && DecSeq(e, n - i, b, Pos()).1 == all.1
      {
        DecSeqStep(e, n - i, b, Pos(), vs);
        var z := Get(e);
        vs := vs + [z];
        i := i + 1;
      }
      DecSeqEnd(e, b, Pos(), vs);
    }

    /** The map is cleared first, so it holds the pairs read here. */
    method GetMap(k: Ty, e: Ty, n: nat) returns (d: seq<Pair>)
      requires Valid()
      modifies this`ind, this`ok
      ensures (d, Pos()) == DecPairs(k, e, n, [], Data(), old(Pos()))
      decreases TMap(k, e), 0, 1
    {
      hide Dec, DecPair, Codec.Put;
      d := [];
      var i := 0;
      ghost var b, all := Data(), DecPairs(k, e, n, [], Data(), Pos());
      while i < n
        invariant 0 <= i <= n && Data() == b
        invariant DecPairs(k, e, n - i, d, b, Pos()) == all
      {
        var p := GetPair(k, e);
        d := Codec.Put(d, p.k, p.v);
        i := i + 1;
      }
    }

    method GetPair(k: Ty, e: Ty) returns (p: Pair)
      requires Valid()
      modifies this`ind, this`ok
      ensures (p, Pos()) == DecPair(k, e, Data(), old(Pos()))
      decreases TMap(k, e), 0, 0
    {
      hide Dec;
      var a := Get(k);
      var b := Get(e);
      p := Pair(a, b);
    }

    method UnpackReqHeader() returns (h: ReqHeader)
      requires Valid()
      modifies this`ind, this`ok
      ensures (h, Pos()) == DecReqHeader(Data(), old(ok))
    {
      hide GetU32, FromUnsigned;
      ind := HEADER_SZ;
      var xid := GetSigned();
      var prc := GetSigned();
      var clt := GetNat32();
      var srv := GetNat32();
      var rep := GetSigned();
      ind := RPC_HEADER_SZ;
      h := ReqHeader(xid, prc, clt, srv, rep);
    }

    method UnpackReplyHeader() returns (h: ReplyHeader)
      requires Valid()
      modifies this`ind, this`ok
      ensures (h, Pos()) == DecReplyHeader(Data(), old(ok))
    {
      hide GetU32, FromUnsigned;
      ind := HEADER_SZ;
      var xid := GetSigned();
      var ret := GetSigned();
      ind := RPC_HEADER_SZ;
      h := ReplyHeader(xid, ret);
    }

    method Done() returns (done: bool)
      requires Valid()
      ensures done <==> OkDone(Data(), Pos())
    {
      done := ok && ind == sz;
    }
  }

  // ---- Both ends ----

  method PutAll(m: MarshallBuf, ts: seq<Ty>, vs: seq<Val>)
    requires m.Ready() && AllWellTyped(ts, vs)
    modifies m, m.buf
    ensures m.Ready() && m.Written() == old(m.Written()) + EncAll(ts, vs)
    ensures m.buf == old(m.buf) || fresh(m.buf)
  {
    hide Enc, WellTyped;
    var i := 0;
    while i < |ts|
      invariant 0 <= i <= |ts| && m.Ready() && (m.buf == old(m.buf) || fresh(m.buf))
      invariant AllWellTyped(ts[i..], vs[i..])
      invariant m.Written() + EncAll(ts[i..], vs[i..]) == old(m.Written()) + EncAll(ts, vs)
    {
      ghost var w := m.Written();
      assert ts[i..][1..] == ts[i + 1..] && vs[i..][1..] == vs[i + 1..];
      assert ts[i..][0] == ts[i] && vs[i..][0] == vs[i];
      m.Put(ts[i], vs[i]);
      assert w + (Enc(ts[i], vs[i]) + EncAll(ts[i + 1..], vs[i + 1..])) == m.Written() + EncAll(ts[i + 1..], vs[i + 1..]);
      i := i + 1;
    }
    assert m.Written() + [] == m.Written();
  }

  method GetAll(un: UnmarshallBuf, ts: seq<Ty>) returns (vs: seq<Val>)
    requires un.Valid()
    modifies un`ind, un`ok
    ensures (vs, un.Pos()) == DecAll(ts, un.Data(), old(un.Pos()))
  {
    hide Dec;
    vs := [];
    var i := 0;
    ghost var b, all := un.Data(), DecAll(ts, un.Data(), un.Pos());
    while i < |ts|
      invariant 0 <= i <= |ts| && un.Data() == b
      invariant vs + DecAll(ts[i..], b, un.Pos()).0 == all.0 && DecAll(ts[i..], b, un.Pos()).1 == all.1
    {
      assert ts[i..][0] == ts[i] && ts[i..][1..] == ts[i + 1..];
      ghost var was := vs;
      var v := un.Get(ts[i]);
      vs := vs + [v];
      i := i + 1;
      ghost var rest := DecAll(ts[i..], b, un.Pos()).0;
      assert was + ([v] + rest) == vs + rest;
    }
    assert vs + [] == vs;
  }

  /** What the repository's own test of the two classes does, for every header and every argument list:
      pack the header, write the arguments, hand the buffer over, and read it all back. */
  method TestMarshall(h: ReqHeader, ts: seq<Ty>, vs: seq<Val>) returns (h1: ReqHeader, vs1: seq<Val>, done: bool)
    requires ReqHeaderOk(h) && AllWellTyped(ts, vs) && RPC_HEADER_SZ + |EncAll(ts, vs)| < U32 / 2
    ensures h1 == h && vs1 == vs && done
  {
    hide EncReqHeader, DecReqHeader, EncAll, DecAll, WellTyped;
    var m := new MarshallBuf();
    m.PackReqHeader(h);
    ghost var front := m.Written();
    assert front[HEADER_SZ..RPC_HEADER_SZ] == EncReqHeader(h);
    PutAll(m, ts, vs);
    var un := new UnmarshallBuf.FromBuf(m.buf, m.ind);
    ghost var b := un.Data();
    assert b == front + EncAll(ts, vs);
    assert b[HEADER_SZ..RPC_HEADER_SZ] == EncReqHeader(h);
    ReqHeaderRoundTrip(b, h);
    AllRoundTrip(ts, vs, b, RPC_HEADER_SZ);
    h1 := un.UnpackReqHeader();
    vs1 := GetAll(un, ts);
    done := un.Done();
  }
}
