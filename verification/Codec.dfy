/** The wire format (rpc/rpc.cc:714-949, rpc/marshall.h:117-258) as functions: big-endian integers,
    length-prefixed strings, vectors and maps, and a decoder that keeps going after its input ran
    out, with a sticky `ok` flag. */
module Codec {
  import opened RpcTypes

  datatype Ty =
    | TBool | TU8 | TI8 | TU16 | TI16 | TU32 | TI32 | TU64 | TStr
    | TVec(elem: Ty) | TMap(key: Ty, val: Ty)

  /** Decoded values; a map is its list of pairs in iteration order. */
  datatype Val =
    | VInt(n: int) | VStr(s: Bytes) | VVec(vs: seq<Val>) | VMap(ps: seq<Pair>)

  datatype Pair = Pair(k: Val, v: Val)

  /** The read position of an `unmarshall` object and its flag. */
  datatype Cur = Cur(ind: nat, ok: bool)

  const U16: nat := 0x1_0000
  const U32: nat := 0x1_0000_0000
  const U64: nat := 0x1_0000_0000_0000_0000

  predicate Scalar(t: Ty) {
    t.TBool? || t.TU8? || t.TI8? || t.TU16? || t.TI16? || t.TU32? || t.TI32? || t.TU64?
  }

  /** Number of values of a scalar type's unsigned representation. */
  function Range(t: Ty): (r: nat)
    requires Scalar(t)
  {
    match t
    case TBool => 2
    case TU8 | TI8 => 256
    case TU16 | TI16 => U16
    case TU32 | TI32 => U32
    case TU64 => U64
  }

  predicate Signed(t: Ty) {
    t.TI8? || t.TI16? || t.TI32?
  }

  predicate InRange(t: Ty, n: int)
    requires Scalar(t)
  {
    if Signed(t) then -(Range(t) / 2) <= n < Range(t) / 2 else 0 <= n < Range(t)
  }

  /** Two's complement, both ways. */
  function ToUnsigned(t: Ty, n: int): (r: nat)
    requires Scalar(t) && InRange(t, n)
    ensures r < Range(t)
  {
    if n < 0 then n + Range(t) else n
  }

  function FromUnsigned(t: Ty, u: nat): (n: int)
    requires Scalar(t) && u < Range(t)
    ensures InRange(t, n) && ToUnsigned(t, n) == u
  {
    if Signed(t) && u >= Range(t) / 2 then u - Range(t) else u
  }

  ghost predicate DistinctKeys(ps: seq<Pair>) {
    forall i, j | 0 <= i < j < |ps| :: ps[i].k != ps[j].k
  }

  ghost predicate WellTyped(t: Ty, v: Val)
    decreases v
  {
    if Scalar(t) then v.VInt? && InRange(t, v.n)
    else match t
      case TStr => v.VStr? && |v.s| < U32 / 2
      case TVec(e) => v.VVec? && |v.vs| < U32 && forall x | x in v.vs :: WellTyped(e, x)
      case TMap(k, e) =>
        && v.VMap? && |v.ps| < U32 && DistinctKeys(v.ps)
        && forall p | p in v.ps :: WellTypedPair(k, e, p)
  }

  ghost predicate WellTypedPair(k: Ty, e: Ty, p: Pair)
    decreases p
  {
    WellTyped(k, p.k) && WellTyped(e, p.v)
  }

  function EncU16(u: nat): (b: Bytes)
    ensures |b| == 2
  {
    [u / 256 % 256, u % 256]
  }

  function EncU32(u: nat): (b: Bytes)
    ensures |b| == 4
  {
    [u / 0x1000000 % 256, u / 0x10000 % 256, u / 0x100 % 256, u % 256]
  }

  function EncScalar(t: Ty, u: nat): (b: Bytes)
    requires Scalar(t) && u < Range(t)
    ensures |b| > 0
  {
    match t
    case TBool | TU8 | TI8 => [u % 256]
    case TU16 | TI16 => EncU16(u)
    case TU32 | TI32 => EncU32(u)
    case TU64 => EncU32(u / U32) + EncU32(u % U32)
  }

  ghost function Enc(t: Ty, v: Val): (b: Bytes)
    requires WellTyped(t, v)
    ensures |b| > 0
    decreases v, 1
  {
    if Scalar(t) then EncScalar(t, ToUnsigned(t, v.n))
    else match t
      case TStr => EncU32(|v.s|) + v.s
      case TVec(e) => EncU32(|v.vs|) + EncSeq(e, v.vs)
      case TMap(k, e) => EncU32(|v.ps|) + EncPairs(k, e, v.ps)
  }

  ghost function EncSeq(e: Ty, vs: seq<Val>): Bytes
    requires forall x | x in vs :: WellTyped(e, x)
    decreases vs, 0
  {
    if vs == [] then [] else Enc(e, vs[0]) + EncSeq(e, vs[1..])
  }

  ghost function EncPair(k: Ty, e: Ty, p: Pair): Bytes
    requires WellTypedPair(k, e, p)
    decreases p, 0
  {
    Enc(k, p.k) + Enc(e, p.v)
  }

  ghost function EncPairs(k: Ty, e: Ty, ps: seq<Pair>): Bytes
    requires forall p | p in ps :: WellTypedPair(k, e, p)
    decreases ps, 0
  {
    if ps == [] then [] else EncPair(k, e, ps[0]) + EncPairs(k, e, ps[1..])
  }

  function GetByte(b: Bytes, c: Cur): (r: (Byte, Cur))
    ensures r.1.ind <= |b| || r.1.ind == c.ind
    ensures c.ind <= r.1.ind
  {
    if c.ind >= |b| then (0, c.(ok := false)) else (b[c.ind], c.(ind := c.ind + 1))
  }

  function GetU16(b: Bytes, c: Cur): (r: (nat, Cur))
    ensures r.0 < U16
  {
    var (x1, c1) := GetByte(b, c);
    var (x0, c0) := GetByte(b, c1);
    (x1 * 256 + x0, c0)
  }

  function GetU32(b: Bytes, c: Cur): (r: (nat, Cur))
    ensures r.0 < U32
  {
    var (x3, c3) := GetByte(b, c);
    var (x2, c2) := GetByte(b, c3);
    var (x1, c1) := GetByte(b, c2);
    var (x0, c0) := GetByte(b, c1);
    (x3 * 0x1000000 + x2 * 0x10000 + x1 * 0x100 + x0, c0)
  }

  function GetScalar(t: Ty, b: Bytes, c: Cur): (r: (nat, Cur))
    requires Scalar(t)
    ensures r.0 < Range(t)
  {
    match t
    case TBool => var (x, c') := GetByte(b, c); (if x != 0 then 1 else 0, c')
    case TU8 | TI8 => var (x, c') := GetByte(b, c); (x, c')
    case TU16 | TI16 => GetU16(b, c)
    case TU32 | TI32 => GetU32(b, c)
    case TU64 =>
      var (h, c1) := GetU32(b, c);
      var (l, c2) := GetU32(b, c1);
      (h * U32 + l, c2)
  }

  /** `rawbytes` into a string: all n bytes, or none and the flag goes down. The test adds in 32 bits;
      when the sum wraps and passes, the source copies from beyond its buffer, and what it gets is
      left open here (an empty string stands for it). */
  function GetBytes(b: Bytes, c: Cur, n: nat): (Bytes, Cur) {
    if (c.ind + n) % U32 > |b| then ([], c.(ok := false))
    else if Overruns(b, c, n) then ([], c.(ind := (c.ind + n) % U32))
    else (b[c.ind..c.ind + n], c.(ind := c.ind + n))
  }

  predicate Overruns(b: Bytes, c: Cur, n: nat) {
    (c.ind + n) % U32 <= |b| < c.ind + n
  }

  /** Reading a string stays inside the buffer, or lowers the flag, exactly when the length does not
      wrap the position round to a place inside the buffer; lengths below 2^31 never do. */
  lemma StringReadIsSafeIff(b: Bytes, c: Cur, n: nat)
    requires c.ind <= |b| < U32 / 2 && n < U32
    ensures Overruns(b, c, n) <==> U32 <= c.ind + n <= U32 + |b|
    ensures !Overruns(b, c, n) ==>
      GetBytes(b, c, n) == if c.ind + n > |b| then ([], c.(ok := false)) else (b[c.ind..c.ind + n], c.(ind := c.ind + n))
    ensures n < U32 / 2 ==> !Overruns(b, c, n)
  {
    assert c.ind + n < U32 ==> (c.ind + n) % U32 == c.ind + n;
    assert U32 <= c.ind + n ==> (c.ind + n) % U32 == c.ind + n - U32;
  }

  /** An input on which the test is wrong: a PDU that ends with the length word 2^32 - 28 at position 24.
      The sum wraps to 0, the flag stays up, and the source copies from beyond its buffer. */
  lemma LengthTestWraps(b: Bytes)
    requires |b| == 28 && b[24..] == [255, 255, 255, 228]
    ensures GetU32(b, Cur(24, true)) == (U32 - 28, Cur(28, true))
    ensures Overruns(b, Cur(28, true), U32 - 28)
    ensures Dec(TStr, b, Cur(24, true)).1.ok
  {
    assert b[24] == b[24..][0] && b[25] == b[24..][1] && b[26] == b[24..][2] && b[27] == b[24..][3];
    assert 28 + (U32 - 28) == U32;
    hide GetBytes;
    StringReadIsSafeIff(b, Cur(28, true), U32 - 28);
    OverrunKeepsOk(b, Cur(28, true), U32 - 28);
  }

  lemma OverrunKeepsOk(b: Bytes, c: Cur, n: nat)
    requires Overruns(b, c, n)
    ensures GetBytes(b, c, n).1.ok == c.ok
  {
  }

  /** `d[a] = b` on the pair list. */
  function Put(ps: seq<Pair>, k: Val, v: Val): seq<Pair> {
    if ps == [] then [Pair(k, v)]
    else if ps[0].k == k then [Pair(k, v)] + ps[1..]
    else [ps[0]] + Put(ps[1..], k, v)
  }

  function Dec(t: Ty, b: Bytes, c: Cur): (Val, Cur)
    decreases t, 1, 0
  {
    if Scalar(t) then
      var (u, c1) := GetScalar(t, b, c);
      (VInt(FromUnsigned(t, u)), c1)
    else
      var (n, c1) := GetU32(b, c);
      match t
      case TStr =>
        if c1.ok then var (s, c2) := GetBytes(b, c1, n); (VStr(s), c2) else (VStr([]), c1)
      case TVec(e) =>
        var (vs, c2) := DecSeq(e, n, b, c1);
        (VVec(vs), c2)
      case TMap(k, e) =>
        var (ps, c2) := DecPairs(k, e, n, [], b, c1);
        (VMap(ps), c2)
  }

  function DecSeq(e: Ty, n: nat, b: Bytes, c: Cur): (r: (seq<Val>, Cur))
    ensures |r.0| == n
    decreases e, 2, n
  {
    if n == 0 then ([], c)
    else
      var (v, c1) := Dec(e, b, c);
      var (vs, c2) := DecSeq(e, n - 1, b, c1);
      ([v] + vs, c2)
  }

  /** Reads n pairs into the map built so far. */
  function DecPairs(k: Ty, e: Ty, n: nat, acc: seq<Pair>, b: Bytes, c: Cur): (seq<Pair>, Cur)
    decreases TMap(k, e), 0, n
  {
    if n == 0 then (acc, c)
    else
      var (p, c1) := DecPair(k, e, b, c);
      DecPairs(k, e, n - 1, Put(acc, p.k, p.v), b, c1)
  }

  function DecPair(k: Ty, e: Ty, b: Bytes, c: Cur): (Pair, Cur)
    decreases TMap(k, e), 0, 0
  {
    var (x, c1) := Dec(k, b, c);
    var (y, c2) := Dec(e, b, c1);
    (Pair(x, y), c2)
  }

  // ---- Encodings inside a buffer ----

  /** `e` stands in `b` at position i; the size of a buffer is an `int`. */
  ghost predicate At(b: Bytes, i: nat, e: Bytes) {
    i + |e| <= |b| < U32 / 2 && b[i..i + |e|] == e
  }

  /** `b` ends inside `e`, which starts at position i. */
  ghost predicate CutAt(b: Bytes, i: nat, e: Bytes) {
    i <= |b| < i + |e| && |b| < U32 / 2 && b[i..] == e[..|b| - i]
  }

  lemma AtSplit(b: Bytes, i: nat, x: Bytes, y: Bytes)
    requires At(b, i, x + y)
    ensures At(b, i, x) && At(b, i + |x|, y)
  {
    var e := x + y;
    assert b[i..i + |x|] == b[i..i + |e|][..|x|];
    assert b[i + |x|..i + |e|] == b[i..i + |e|][|x|..];
  }

  lemma CutSplit(b: Bytes, i: nat, x: Bytes, y: Bytes)
    requires CutAt(b, i, x + y)
    ensures CutAt(b, i, x) || (At(b, i, x) && CutAt(b, i + |x|, y))
  {
    var m := |b| - i;
    if m < |x| {
      assert (x + y)[..m] == x[..m];
    } else {
      assert b[i..i + |x|] == b[i..][..|x|] == (x + y)[..m][..|x|] == x;
      assert b[i + |x|..] == b[i..][|x|..] == (x + y)[..m][|x|..] == y[..m - |x|];
    }
  }

  /** The four digits of a word in base 256. */
  lemma U32Digits(u: nat)
    requires u < U32
    ensures var e := EncU32(u); e[0] as int * 0x1000000 + e[1] as int * 0x10000 + e[2] as int * 0x100 + e[3] as int == u
  {
    var q1 := u / 0x100;
    var q2 := q1 / 0x100;
    var q3 := q2 / 0x100;
    assert q2 == u / 0x10000 && q3 == u / 0x1000000;
    assert q3 < 0x100;
  }

  lemma U32RoundTrip(b: Bytes, i: nat, u: nat)
    requires u < U32 && At(b, i, EncU32(u))
    ensures GetU32(b, Cur(i, true)) == (u, Cur(i + 4, true))
  {
    hide EncU32;
    U32Digits(u);
    var e := b[i..i + 4];
    assert e[0] == b[i] && e[1] == b[i + 1] && e[2] == b[i + 2] && e[3] == b[i + 3];
  }

  lemma ScalarRoundTrip(t: Ty, b: Bytes, i: nat, u: nat)
    requires Scalar(t) && u < Range(t) && At(b, i, EncScalar(t, u))
    ensures GetScalar(t, b, Cur(i, true)) == (u, Cur(i + |EncScalar(t, u)|, true))
  {
    match t
    case TU64 =>
      AtSplit(b, i, EncU32(u / U32), EncU32(u % U32));
      U32RoundTrip(b, i, u / U32);
      U32RoundTrip(b, i + 4, u % U32);
    case TU32 | TI32 => U32RoundTrip(b, i, u);
    case TU16 | TI16 =>
      var e := b[i..i + 2];
      assert e[0] == b[i] && e[1] == b[i + 1];
    case TBool | TU8 | TI8 =>
      assert b[i..i + 1][0] == b[i];
  }

  lemma ScalarCut(t: Ty, b: Bytes, i: nat, u: nat)
    requires Scalar(t) && u < Range(t) && CutAt(b, i, EncScalar(t, u))
    ensures !GetScalar(t, b, Cur(i, true)).1.ok
  {
    if t.TU64? {
      CutLength(u / U32, EncU32(u % U32), b, i);
    }
  }

  lemma OkIsSticky(t: Ty, b: Bytes, c: Cur)
    requires !c.ok
    ensures !Dec(t, b, c).1.ok
    decreases t, 1, 0
  {
    if t.TVec? {
      SeqOkIsSticky(t.elem, GetU32(b, c).0, b, GetU32(b, c).1);
    } else if t.TMap? {
      PairsOkIsSticky(t.key, t.val, GetU32(b, c).0, [], b, GetU32(b, c).1);
    }
  }

  lemma {:induction false} SeqOkIsSticky(e: Ty, n: nat, b: Bytes, c: Cur)
    requires !c.ok
    ensures !DecSeq(e, n, b, c).1.ok
    decreases e, 2, n
  {
    if n > 0 {
      OkIsSticky(e, b, c);
      SeqOkIsSticky(e, n - 1, b, Dec(e, b, c).1);
    }
  }

  lemma {:induction false} PairsOkIsSticky(k: Ty, e: Ty, n: nat, acc: seq<Pair>, b: Bytes, c: Cur)
    requires !c.ok
    ensures !DecPairs(k, e, n, acc, b, c).1.ok
    decreases TMap(k, e), 0, n
  {
    if n > 0 {
      OkIsSticky(k, b, c);
      OkIsSticky(e, b, Dec(k, b, c).1);
      var (p, c1) := DecPair(k, e, b, c);
      PairsOkIsSticky(k, e, n - 1, Put(acc, p.k, p.v), b, c1);
    }
  }

  lemma StrRoundTrip(s: Bytes, b: Bytes, i: nat)
    requires |s| < U32 / 2 && At(b, i, EncU32(|s|) + s)
    ensures GetU32(b, Cur(i, true)) == (|s|, Cur(i + 4, true))
    ensures GetBytes(b, Cur(i + 4, true), |s|) == (s, Cur(i + 4 + |s|, true))
  {
    hide EncU32, GetU32;
    AtSplit(b, i, EncU32(|s|), s);
    U32RoundTrip(b, i, |s|);
  }

  /** Decoding an encoding, whatever stands before and after it in the buffer, gives the value
      back and consumes exactly the encoding. */
  lemma {:induction false} RoundTrip(t: Ty, v: Val, b: Bytes, i: nat)
    requires WellTyped(t, v) && At(b, i, Enc(t, v))
    ensures Dec(t, b, Cur(i, true)) == (v, Cur(i + |Enc(t, v)|, true))
    decreases v, 1
  {
    hide EncU32, GetU32, GetBytes, EncScalar, GetScalar;
    if Scalar(t) {
      ScalarRoundTrip(t, b, i, ToUnsigned(t, v.n));
      return;
    }
    match t
    case TStr =>
      StrRoundTrip(v.s, b, i);
    case TVec(e) =>
      AtSplit(b, i, EncU32(|v.vs|), EncSeq(e, v.vs));
      U32RoundTrip(b, i, |v.vs|);
      SeqRoundTrip(e, v.vs, b, i + 4);
    case TMap(k, e) =>
      AtSplit(b, i, EncU32(|v.ps|), EncPairs(k, e, v.ps));
      U32RoundTrip(b, i, |v.ps|);
      PairsRoundTrip(k, e, [], v.ps, b, i + 4);
      assert [] + v.ps == v.ps;
  }

  lemma {:induction false} SeqRoundTrip(e: Ty, vs: seq<Val>, b: Bytes, i: nat)
    requires forall x | x in vs :: WellTyped(e, x)
    requires At(b, i, EncSeq(e, vs))
    ensures DecSeq(e, |vs|, b, Cur(i, true)) == (vs, Cur(i + |EncSeq(e, vs)|, true))
    decreases vs, 0
  {
    hide Dec, Enc, WellTyped;
    if vs != [] {
      var first := Enc(e, vs[0]);
      AtSplit(b, i, first, EncSeq(e, vs[1..]));
      RoundTrip(e, vs[0], b, i);
      SeqRoundTrip(e, vs[1..], b, i + |first|);
      assert vs == [vs[0]] + vs[1..];
    }
  }

  lemma {:induction false} PutFresh(ps: seq<Pair>, k: Val, v: Val)
    requires forall p | p in ps :: p.k != k
    ensures Put(ps, k, v) == ps + [Pair(k, v)]
  {
    if ps != [] {
      PutFresh(ps[1..], k, v);
      assert ps == [ps[0]] + ps[1..];
    }
  }

  lemma {:induction false} PairRoundTrip(k: Ty, e: Ty, p: Pair, b: Bytes, i: nat)
    requires WellTypedPair(k, e, p) && At(b, i, EncPair(k, e, p))
    ensures DecPair(k, e, b, Cur(i, true)) == (p, Cur(i + |EncPair(k, e, p)|, true))
    decreases p, 0
  {
    hide Dec, Enc, WellTyped;
    AtSplit(b, i, Enc(k, p.k), Enc(e, p.v));
    RoundTrip(k, p.k, b, i);
    RoundTrip(e, p.v, b, i + |Enc(k, p.k)|);
  }

  lemma {:induction false} PairsRoundTrip(k: Ty, e: Ty, acc: seq<Pair>, ps: seq<Pair>, b: Bytes, i: nat)
    requires forall p | p in ps :: WellTypedPair(k, e, p)
    requires DistinctKeys(acc + ps)
    requires At(b, i, EncPairs(k, e, ps))
    ensures DecPairs(k, e, |ps|, acc, b, Cur(i, true)) == (acc + ps, Cur(i + |EncPairs(k, e, ps)|, true))
    decreases ps, 0
  {
    hide Dec, Enc, WellTyped, WellTypedPair, EncPair, DecPair, Put;
    if ps == [] {
      assert acc + ps == acc;
    } else {
      var p, first := ps[0], EncPair(k, e, ps[0]);
      AtSplit(b, i, first, EncPairs(k, e, ps[1..]));
      PairRoundTrip(k, e, p, b, i);
      FreshKey(acc, ps);
      PutFresh(acc, p.k, p.v);
      assert acc + ps == (acc + [p]) + ps[1..];
      PairsRoundTrip(k, e, acc + [p], ps[1..], b, i + |first|);
    }
  }

  lemma FreshKey(acc: seq<Pair>, ps: seq<Pair>)
    requires DistinctKeys(acc + ps) && ps != []
    ensures forall p | p in acc :: p.k != ps[0].k
  {
    var all := acc + ps;
    forall p | p in acc ensures p.k != ps[0].k {
      var j :| 0 <= j < |acc| && acc[j] == p;
      assert all[j] == p && all[|acc|] == ps[0];
    }
  }

  /** A buffer that ends inside an encoding always clears `ok`. */
  lemma {:induction false} CutClearsOk(t: Ty, v: Val, b: Bytes, i: nat)
    requires WellTyped(t, v) && CutAt(b, i, Enc(t, v))
    ensures !Dec(t, b, Cur(i, true)).1.ok
    decreases v, 1
  {
    if Scalar(t) {
      ScalarCut(t, b, i, ToUnsigned(t, v.n));
      return;
    }
    var (n, c) := GetU32(b, Cur(i, true));
    match t
    case TStr => CutLength(|v.s|, v.s, b, i);
    case TVec(e) =>
      CutLength(|v.vs|, EncSeq(e, v.vs), b, i);
      if c.ok { CutSeq(e, v.vs, b, i + 4); } else { SeqOkIsSticky(e, n, b, c); }
    case TMap(k, e) =>
      CutLength(|v.ps|, EncPairs(k, e, v.ps), b, i);
      if c.ok { CutPairs(k, e, [], v.ps, b, i + 4); } else { PairsOkIsSticky(k, e, n, [], b, c); }
  }

  /** A cut length-prefixed encoding: either the length is unreadable, or it is read correctly and
      the cut lies in what follows. */
  lemma CutLength(n: nat, rest: Bytes, b: Bytes, i: nat)
    requires n < U32 && CutAt(b, i, EncU32(n) + rest)
    ensures GetU32(b, Cur(i, true)).1.ok ==>
      GetU32(b, Cur(i, true)) == (n, Cur(i + 4, true)) && CutAt(b, i + 4, rest)
  {
    CutSplit(b, i, EncU32(n), rest);
    if At(b, i, EncU32(n)) {
      U32RoundTrip(b, i, n);
    }
  }

  lemma {:induction false} CutSeq(e: Ty, vs: seq<Val>, b: Bytes, i: nat)
    requires forall x | x in vs :: WellTyped(e, x)
    requires CutAt(b, i, EncSeq(e, vs))
    ensures !DecSeq(e, |vs|, b, Cur(i, true)).1.ok
    decreases vs, 0
  {
    hide Dec, Enc, WellTyped;
    var first, rest := Enc(e, vs[0]), EncSeq(e, vs[1..]);
    var c1 := Dec(e, b, Cur(i, true)).1;
    CutSplit(b, i, first, rest);
    if CutAt(b, i, first) {
      CutClearsOk(e, vs[0], b, i);
      SeqOkIsSticky(e, |vs| - 1, b, c1);
    } else {
      RoundTrip(e, vs[0], b, i);
      CutSeq(e, vs[1..], b, i + |first|);
    }
  }

  lemma {:induction false} CutPair(k: Ty, e: Ty, p: Pair, b: Bytes, i: nat)
    requires WellTypedPair(k, e, p) && CutAt(b, i, EncPair(k, e, p))
    ensures !DecPair(k, e, b, Cur(i, true)).1.ok
    decreases p, 0
  {
    hide Dec, Enc, WellTyped;
    var ex := Enc(k, p.k);
    var c1 := Dec(k, b, Cur(i, true)).1;
    CutSplit(b, i, ex, Enc(e, p.v));
    if CutAt(b, i, ex) {
      CutClearsOk(k, p.k, b, i);
      assert !c1.ok;
      OkIsSticky(e, b, c1);
    } else {
      RoundTrip(k, p.k, b, i);
      CutClearsOk(e, p.v, b, i + |ex|);
    }
  }

  lemma {:induction false} CutPairs(k: Ty, e: Ty, acc: seq<Pair>, ps: seq<Pair>, b: Bytes, i: nat)
    requires forall p | p in ps :: WellTypedPair(k, e, p)
    requires CutAt(b, i, EncPairs(k, e, ps))
    ensures !DecPairs(k, e, |ps|, acc, b, Cur(i, true)).1.ok
    decreases ps, 0
  {
    hide Dec, Enc, WellTyped, EncPair, DecPair, Put, WellTypedPair;
    var first := EncPair(k, e, ps[0]);
    var (p, c1) := DecPair(k, e, b, Cur(i, true));
    CutSplit(b, i, first, EncPairs(k, e, ps[1..]));
    if CutAt(b, i, first) {
      CutPair(k, e, ps[0], b, i);
      PairsOkIsSticky(k, e, |ps| - 1, Put(acc, p.k, p.v), b, c1);
    } else {
      PairRoundTrip(k, e, ps[0], b, i);
      CutPairs(k, e, Put(acc, p.k, p.v), ps[1..], b, i + |first|);
    }
  }
}
