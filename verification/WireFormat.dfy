/** The byte layout of everything that goes on the wire (rpc/rpc.cc:739-836, rpc/marshall.h:82-107,
    210-242), said without the encoder and the decoder: which byte holds what. */
module WireFormat {
  import opened RpcTypes
  import opened Codec
  import opened Marshall

  /** The number that bytes stand for in network order. */
  function BigEndian(b: Bytes): nat {
    if b == [] then 0 else BigEndian(b[..|b| - 1]) * 256 + b[|b| - 1]
  }

  function Width(t: Ty): nat
    requires Scalar(t)
  {
    match t
    case TBool | TU8 | TI8 => 1
    case TU16 | TI16 => 2
    case TU32 | TI32 => 4
    case TU64 => 8
  }

  lemma BigEndianAdd(a: Bytes, x: Byte)
    ensures BigEndian(a + [x]) == BigEndian(a) * 256 + x
  {
    assert (a + [x])[..|a|] == a;
  }

  lemma BigEndianTwo(x: Byte, y: Byte)
    ensures BigEndian([x]) == x && BigEndian([x, y]) == x as nat * 256 + y
  {
    assert [] + [x] == [x] && [x] + [y] == [x, y];
    BigEndianAdd([], x);
    BigEndianAdd([x], y);
  }

  lemma BigEndianConcat(a: Bytes, b: Bytes)
    requires |b| == 4
    ensures BigEndian(a + b) ==
      BigEndian(a) * 0x1_0000_0000 + b[0] as nat * 0x1000000 + b[1] as nat * 0x10000 + b[2] as nat * 0x100 + b[3]
  {
    hide BigEndian;
    BigEndianAdd(a, b[0]);
    BigEndianAdd(a + [b[0]], b[1]);
    BigEndianAdd(a + [b[0]] + [b[1]], b[2]);
    BigEndianAdd(a + [b[0]] + [b[1]] + [b[2]], b[3]);
    assert a + b == a + [b[0]] + [b[1]] + [b[2]] + [b[3]];
  }

  lemma BigEndianFour(b: Bytes)
    requires |b| == 4
    ensures BigEndian(b) == b[0] as nat * 0x1000000 + b[1] as nat * 0x10000 + b[2] as nat * 0x100 + b[3]
  {
    assert [] + b == b && BigEndian([]) == 0;
    BigEndianConcat([], b);
  }

  lemma WordIsBigEndian(u: nat)
    requires u < U32
    ensures BigEndian(EncU32(u)) == u
  {
    U32Digits(u);
    hide EncU32;
    BigEndianFour(EncU32(u));
  }

  /** An integer is its bytes, the high one first, as many as its type has. */
  lemma ScalarIsBigEndian(t: Ty, u: nat)
    requires Scalar(t) && u < Range(t)
    ensures |EncScalar(t, u)| == Width(t) && BigEndian(EncScalar(t, u)) == u
  {
    match t
    case TBool | TU8 | TI8 => BigEndianTwo(u % 256, 0);
    case TU16 | TI16 => BigEndianTwo(u / 256 % 256, u % 256);
    case TU32 | TI32 => WordIsBigEndian(u);
    case TU64 =>
      hide EncU32, BigEndian;
      WordIsBigEndian(u / U32);
      WordIsBigEndian(u % U32);
      BigEndianFour(EncU32(u % U32));
      BigEndianConcat(EncU32(u / U32), EncU32(u % U32));
  }

  /** Negative numbers go as their two's complement. */
  lemma TwosComplement(t: Ty, n: int)
    requires Scalar(t) && InRange(t, n)
    ensures ToUnsigned(t, n) == n % Range(t)
  {
  }

  // ---- Headers ----

  /** The word at position i. */
  function WordAt(b: Bytes, i: nat): nat
    requires i + 4 <= |b|
  {
    BigEndian(b[i..i + 4])
  }

  lemma WordOfAt(b: Bytes, i: nat, u: nat)
    requires u < U32 && At(b, i, EncU32(u))
    ensures i + 4 <= |b| && WordAt(b, i) == u
  {
    hide EncU32, BigEndian;
    WordIsBigEndian(u);
  }

  /** A request: after the length, xid, procedure, the two nonces, and the watermark. */
  lemma ReqHeaderLayout(h: ReqHeader, b: Bytes)
    requires ReqHeaderOk(h) && At(b, HEADER_SZ, EncReqHeader(h))
    ensures WordAt(b, 4) == h.xid % U32 && WordAt(b, 8) == h.prc % U32
    ensures WordAt(b, 12) == h.cltNonce && WordAt(b, 16) == h.srvNonce && WordAt(b, 20) == h.xidRep % U32
  {
    hide EncU32, BigEndian, WordAt, ToUnsigned;
    var x, p, c, s, r := EncInt(h.xid), EncInt(h.prc), EncU32(h.cltNonce), EncU32(h.srvNonce), EncInt(h.xidRep);
    AtSplit(b, 4, x + p + c + s, r);
    AtSplit(b, 4, x + p + c, s);
    AtSplit(b, 4, x + p, c);
    AtSplit(b, 4, x, p);
    hide At;
    WordOfAt(b, 4, ToUnsigned(TI32, h.xid));
    WordOfAt(b, 8, ToUnsigned(TI32, h.prc));
    WordOfAt(b, 12, h.cltNonce);
    WordOfAt(b, 16, h.srvNonce);
    WordOfAt(b, 20, ToUnsigned(TI32, h.xidRep));
    TwosComplement(TI32, h.xid);
    TwosComplement(TI32, h.prc);
    TwosComplement(TI32, h.xidRep);
  }

  /** A reply: after the length, xid and return code; what follows starts at byte 24 like a request's. */
  lemma ReplyHeaderLayout(h: ReplyHeader, b: Bytes)
    requires ReplyHeaderOk(h) && At(b, HEADER_SZ, EncReplyHeader(h))
    ensures WordAt(b, 4) == h.xid % U32 && WordAt(b, 8) == h.ret % U32
  {
    hide EncU32, BigEndian, WordAt, ToUnsigned;
    AtSplit(b, 4, EncInt(h.xid), EncInt(h.ret));
    hide At;
    WordOfAt(b, 4, ToUnsigned(TI32, h.xid));
    WordOfAt(b, 8, ToUnsigned(TI32, h.ret));
    TwosComplement(TI32, h.xid);
    TwosComplement(TI32, h.ret);
  }

  // ---- Strings, vectors and maps ----

  lemma StringLayout(s: Bytes)
    requires |s| < U32 / 2
    ensures var e := Enc(TStr, VStr(s)); |e| == 4 + |s| && WordAt(e, 0) == |s| && e[4..] == s
  {
    WordIsBigEndian(|s|);
    hide EncU32, BigEndian;
    assert (EncU32(|s|) + s)[0..4] == EncU32(|s|);
  }

  /** Where element i starts: behind the length and the elements before it. */
  ghost function VecOffset(e: Ty, vs: seq<Val>, i: nat): nat
    requires i <= |vs| && forall x | x in vs :: WellTyped(e, x)
  {
    if i == 0 then 4 else VecOffset(e, vs, i - 1) + |Enc(e, vs[i - 1])|
  }

  /** A vector is its length and its elements in index order, without gaps. */
  lemma VecLayout(e: Ty, vs: seq<Val>, i: nat)
    requires WellTyped(TVec(e), VVec(vs)) && i < |vs| && |Enc(TVec(e), VVec(vs))| < U32 / 2
    ensures var b := Enc(TVec(e), VVec(vs));
      && |b| >= 4 && WordAt(b, 0) == |vs| && At(b, VecOffset(e, vs, i), Enc(e, vs[i]))
      && |b| == VecOffset(e, vs, |vs|)
  {
    VecParts(e, vs);
    hide EncU32, BigEndian, Enc, WellTyped, EncSeq, WordAt;
    var b := Enc(TVec(e), VVec(vs));
    ElementsFrom(e, vs, b, i);
    ElementsFrom(e, vs, b, |vs|);
    EncSeqHead(e, vs, i);
    AtDrop(b, VecOffset(e, vs, i), Enc(e, vs[i]), EncSeq(e, vs[i + 1..]));
    EncSeqNil(e, vs);
  }

  /** What a buffer goes on with stands in it. */
  lemma AtDrop(b: Bytes, o: nat, x: Bytes, rest: Bytes)
    requires o <= |b| < U32 / 2 && b[o..] == x + rest
    ensures At(b, o, x)
  {
    assert b[o..][..|x|] == b[o..o + |x|];
  }

  lemma DropFirst(b: Bytes, o: nat, x: Bytes, rest: Bytes)
    requires o <= |b| && b[o..] == x + rest
    ensures o + |x| <= |b| && b[o + |x|..] == rest
  {
    assert b[o..][|x|..] == b[o + |x|..];
  }

  lemma VecParts(e: Ty, vs: seq<Val>)
    requires WellTyped(TVec(e), VVec(vs))
    ensures var b := Enc(TVec(e), VVec(vs)); |b| >= 4 && WordAt(b, 0) == |vs| && b[4..] == EncSeq(e, vs)
  {
    WordIsBigEndian(|vs|);
    var b := Enc(TVec(e), VVec(vs));
    assert b == EncU32(|vs|) + EncSeq(e, vs);
    hide EncU32, BigEndian, Enc, EncSeq;
    assert b[0..4] == EncU32(|vs|);
  }

  lemma EncSeqNil(e: Ty, vs: seq<Val>)
    requires forall x | x in vs :: WellTyped(e, x)
    ensures EncSeq(e, vs[|vs|..]) == []
  {
  }

  lemma EncSeqHead(e: Ty, vs: seq<Val>, i: nat)
    requires i < |vs| && forall x | x in vs :: WellTyped(e, x)
    ensures EncSeq(e, vs[i..]) == Enc(e, vs[i]) + EncSeq(e, vs[i + 1..])
  {
    hide Enc, WellTyped;
    assert vs[i..][0] == vs[i] && vs[i..][1..] == vs[i + 1..];
  }

  /** From the offset of element i on, the buffer is the encoding of the rest. */
  lemma {:induction false} ElementsFrom(e: Ty, vs: seq<Val>, b: Bytes, i: nat)
    requires i <= |vs| && forall x | x in vs :: WellTyped(e, x)
    requires |b| >= 4 && b[4..] == EncSeq(e, vs)
    ensures VecOffset(e, vs, i) <= |b| && b[VecOffset(e, vs, i)..] == EncSeq(e, vs[i..])
  {
    hide Enc, WellTyped, EncSeq;
    if i == 0 {
      assert vs[0..] == vs;
    } else {
      ElementsFrom(e, vs, b, i - 1);
      EncSeqHead(e, vs, i - 1);
      DropFirst(b, VecOffset(e, vs, i - 1), Enc(e, vs[i - 1]), EncSeq(e, vs[i..]));
    }
  }

  /** Where pair i of a map starts. */
  ghost function MapOffset(k: Ty, e: Ty, ps: seq<Pair>, i: nat): nat
    requires i <= |ps| && forall p | p in ps :: WellTypedPair(k, e, p)
  {
    if i == 0 then 4
    else
      assert WellTypedPair(k, e, ps[i - 1]);
      MapOffset(k, e, ps, i - 1) + |Enc(k, ps[i - 1].k)| + |Enc(e, ps[i - 1].v)|
  }

  lemma EncPairsHead(k: Ty, e: Ty, ps: seq<Pair>, i: nat)
    requires i < |ps| && forall p | p in ps :: WellTypedPair(k, e, p)
    ensures WellTyped(k, ps[i].k) && WellTyped(e, ps[i].v)
    ensures EncPairs(k, e, ps[i..]) == Enc(k, ps[i].k) + Enc(e, ps[i].v) + EncPairs(k, e, ps[i + 1..])
  {
    assert WellTypedPair(k, e, ps[i]);
    hide Enc, WellTyped;
    assert ps[i..][0] == ps[i] && ps[i..][1..] == ps[i + 1..];
  }

  lemma {:induction false} PairsFrom(k: Ty, e: Ty, ps: seq<Pair>, b: Bytes, i: nat)
    requires i <= |ps| && forall p | p in ps :: WellTypedPair(k, e, p)
    requires |b| >= 4 && b[4..] == EncPairs(k, e, ps)
    ensures MapOffset(k, e, ps, i) <= |b| && b[MapOffset(k, e, ps, i)..] == EncPairs(k, e, ps[i..])
  {
    hide Enc, WellTyped, EncPairs, WellTypedPair;
    if i == 0 {
      assert ps[0..] == ps;
    } else {
      PairsFrom(k, e, ps, b, i - 1);
      EncPairsHead(k, e, ps, i - 1);
      DropFirst(b, MapOffset(k, e, ps, i - 1), Enc(k, ps[i - 1].k) + Enc(e, ps[i - 1].v), EncPairs(k, e, ps[i..]));
    }
  }

  lemma PairAt(k: Ty, e: Ty, ps: seq<Pair>, b: Bytes, i: nat)
    requires i < |ps| && forall p | p in ps :: WellTypedPair(k, e, p)
    requires 4 <= |b| < U32 / 2 && b[4..] == EncPairs(k, e, ps)
    requires WellTyped(k, ps[i].k) && WellTyped(e, ps[i].v)
    ensures At(b, MapOffset(k, e, ps, i), Enc(k, ps[i].k))
    ensures At(b, MapOffset(k, e, ps, i) + |Enc(k, ps[i].k)|, Enc(e, ps[i].v))
  {
    hide Enc, WellTyped, WellTypedPair, EncPairs, At, MapOffset;
    PairsFrom(k, e, ps, b, i);
    EncPairsHead(k, e, ps, i);
    var o, x, y := MapOffset(k, e, ps, i), Enc(k, ps[i].k), Enc(e, ps[i].v);
    AtDrop(b, o, x + y, EncPairs(k, e, ps[i + 1..]));
    AtSplit(b, o, x, y);
  }

  /** A map is the number of its pairs, and then the pairs in order, each key right before its value. */
  lemma MapLayout(k: Ty, e: Ty, ps: seq<Pair>, i: nat)
    requires WellTyped(TMap(k, e), VMap(ps)) && i < |ps| && |Enc(TMap(k, e), VMap(ps))| < U32 / 2
    ensures forall p | p in ps :: WellTypedPair(k, e, p)
    ensures WellTyped(k, ps[i].k) && WellTyped(e, ps[i].v)
    ensures |Enc(TMap(k, e), VMap(ps))| >= 4 && WordAt(Enc(TMap(k, e), VMap(ps)), 0) == |ps|
    ensures At(Enc(TMap(k, e), VMap(ps)), MapOffset(k, e, ps, i), Enc(k, ps[i].k))
    ensures At(Enc(TMap(k, e), VMap(ps)), MapOffset(k, e, ps, i) + |Enc(k, ps[i].k)|, Enc(e, ps[i].v))
  {
    hide Enc, WellTyped, WellTypedPair, EncPairs, WordAt, At, MapOffset;
    MapParts(k, e, ps);
    EncPairsHead(k, e, ps, i);
    PairAt(k, e, ps, Enc(TMap(k, e), VMap(ps)), i);
  }

  lemma MapParts(k: Ty, e: Ty, ps: seq<Pair>)
    requires WellTyped(TMap(k, e), VMap(ps))
    ensures forall p | p in ps :: WellTypedPair(k, e, p)
    ensures var b := Enc(TMap(k, e), VMap(ps)); |b| >= 4 && WordAt(b, 0) == |ps| && b[4..] == EncPairs(k, e, ps)
  {
    WordIsBigEndian(|ps|);
    var b := Enc(TMap(k, e), VMap(ps));
    assert b == EncU32(|ps|) + EncPairs(k, e, ps);
    hide EncU32, BigEndian, Enc, EncPairs;
    assert b[0..4] == EncU32(|ps|);
  }
}
