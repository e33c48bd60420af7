/** What each step of a connection does, in terms of the frames and the wire alone: when either end
    may die, what is read and handed over, what is written and what `send` returns. */
module LinkSteps {
  import opened RpcTypes
  import opened Codec
  import opened Connection
  import opened Framing

  /** The limit of the source, ten times 2^20. */
  const TEN_MIB: nat := 10485760

  // ---- The reader ----

  /** How many bytes of the next frame the reader holds. */
  ghost function Held(l: Link): int {
    l.rd - |Flat(l.accepted)|
  }

  /** The size of the frame that the reader is at, or will be at with the next length word. */
  ghost function FrameSize(l: Link): nat {
    if |l.accepted| < |l.sent| then |l.sent[|l.accepted|].data| else 0
  }

  /** Exactly when a callback kills a living reader: at a frame's start, if the length word cannot be
      read whole in one go, or announces more than the limit; and whenever the read of a body fails. */
  ghost predicate MustDie(l: Link, e: Event)
    requires e.Readable?
  {
    if Held(l) == 0 then e.hdr != Got(HEADER_SZ) || FrameSize(l) > TEN_MIB || e.body.ReadFail?
    else Held(l) < FrameSize(l) && e.body.ReadFail?
  }

  /** The bytes that a callback reads from a living reader's socket, if it does not kill it. */
  ghost function Reads(l: Link, e: Event): int
    requires e.Readable?
  {
    if Held(l) == 0 then HEADER_SZ + BodyBytes(e.body)
    else if Held(l) < FrameSize(l) then BodyBytes(e.body)
    else 0
  }

  function BodyBytes(body: ReadOut): nat {
    if body.Got? then body.n else 0
  }

  /** What the callback leaves: the reader holds everything read since the last frame it handed over,
      and hands the next one over when it is complete and taken. */
  ghost predicate ReadsOn(l: Link, e: Event, l1: Link)
    requires e.Readable?
  {
    var f := |Flat(l.accepted)|;
    && l1.rd == l.rd + Reads(l, e) && f <= l1.rd <= |l.wire|
    && (if Held(l) + Reads(l, e) == FrameSize(l) && e.takes
        then |l.accepted| < |l.sent| && l1.accepted == l.accepted + [l.sent[|l.accepted|].data] && l1.rx.r.buf.None?
        else l1.accepted == l.accepted && l1.rx.r.buf == Some(l.wire[f..l1.rd]))
  }

  /** The reading half of the callback, from the point of view of the wire. */
  lemma PullExactly(l: Link, e: Event)
    requires WireInv(l.sent, l.cut, l.wire) && ReadInv(l.sent, l.wire, l.rx, l.rd, l.accepted)
    requires e.Readable? && Enabled(l, e) && !l.rx.dead && NeedsBytes(l.rx.r)
    ensures var (r, rest, ok) := ReadPdu(l.rx.r, l.wire[l.rd..], e.hdr, e.body);
      && (ok <==> !MustDie(l, e))
      && |rest| <= |l.wire|
      && (ok ==> |l.accepted| < |l.sent| && Partial(r, l.sent[|l.accepted|].data)
                 && |l.wire| - |rest| == |Flat(l.accepted)| + |r.buf.value| == l.rd + Reads(l, e))
      && (!ok ==> r == NO_READ)
  {
    hide WireInv, Flat, HeaderSize, Datas, ReadHeader, ReadBody, BodyOutOk;
    ReadPduKeeps(l, e.hdr, e.body);
    if l.rx.r.sz == 0 {
      HeaderVerdict(l, e.hdr);
      BodyVerdict(ReadHeader(l.wire[l.rd..], e.hdr).0, ReadHeader(l.wire[l.rd..], e.hdr).1, e.body);
    } else {
      BodyVerdict(l.rx.r, l.wire[l.rd..], e.body);
    }
  }

  /** The header half lets the read go on iff the length word came whole and is within the limit. */
  lemma HeaderVerdict(l: Link, hdr: ReadOut)
    requires WireInv(l.sent, l.cut, l.wire) && ReadInv(l.sent, l.wire, l.rx, l.rd, l.accepted)
    requires !l.rx.dead && l.rx.r.sz == 0 && HeaderOutOk(|l.wire| - l.rd, hdr)
    ensures ReadHeader(l.wire[l.rd..], hdr).2 <==> hdr == Got(HEADER_SZ) && FrameSize(l) <= TEN_MIB
    ensures ReadHeader(l.wire[l.rd..], hdr).2 ==>
      && ReadHeader(l.wire[l.rd..], hdr).0.buf.Some? && |ReadHeader(l.wire[l.rd..], hdr).0.buf.value| == HEADER_SZ
      && |ReadHeader(l.wire[l.rd..], hdr).1| == |l.wire| - l.rd - HEADER_SZ
  {
    hide WireInv, Flat, HeaderSize, Datas;
    if hdr == Got(HEADER_SZ) {
      NextLength(l);
    }
  }

  lemma BodyVerdict(r: Rbuf, input: Bytes, body: ReadOut)
    ensures r.buf.Some? && BodyOutOk(r, |input|, body) ==>
      var (r1, rest, ok) := ReadBody(r, input, body);
      && (ok <==> !body.ReadFail?)
      && (ok ==> r1.buf.Some? && |r1.buf.value| == |r.buf.value| + BodyBytes(body) && |rest| == |input| - BodyBytes(body))
  {
  }

  /** The next length word on the wire is the size of the frame that it starts. */
  lemma NextLength(l: Link)
    requires WireInv(l.sent, l.cut, l.wire) && ReadInv(l.sent, l.wire, l.rx, l.rd, l.accepted)
    requires !l.rx.dead && l.rx.r.sz == 0 && l.rd + HEADER_SZ <= |l.wire|
    ensures |l.accepted| < |l.sent| && HeaderSize(l.wire[l.rd..][..HEADER_SZ]) == FrameSize(l)
  {
    hide Flat, HeaderSize;
    var m := |l.accepted|;
    if m == |l.sent| {
      NothingUnread(l.sent, l.cut, l.wire);
    }
    var d := l.sent[m].data;
    NextBytes(l.sent, l.cut, l.wire, m, 0, HEADER_SZ);
    HeaderIsLength(d, l.wire[l.rd..][..HEADER_SZ]);
  }

  /** The first bytes of the frame at hand, as the wire has them. */
  lemma HeldBytes(l: Link, d: Bytes, k: nat)
    requires WireInv(l.sent, l.cut, l.wire) && |l.accepted| < |l.sent| && d == l.sent[|l.accepted|].data
    requires l.accepted == Datas(l.sent)[..|l.accepted|]
    requires k <= |d| && |Flat(l.accepted)| + k <= |l.wire|
    ensures l.wire[|Flat(l.accepted)|..|Flat(l.accepted)| + k] == d[..k]
  {
    hide Flat;
    var f := |Flat(l.accepted)|;
    NextBytes(l.sent, l.cut, l.wire, |l.accepted|, 0, k);
    assert l.wire[f + 0..][..k] == l.wire[f..f + k];
  }

  lemma ReaderStep(l: Link, e: Event)
    requires WireInv(l.sent, l.cut, l.wire) && ReadInv(l.sent, l.wire, l.rx, l.rd, l.accepted)
    requires e.Readable? && Enabled(l, e) && !l.rx.dead
    ensures Step(l, e).rx.dead <==> MustDie(l, e)
    ensures MustDie(l, e) ==> Step(l, e).accepted == l.accepted
    ensures !MustDie(l, e) ==> ReadsOn(l, e, Step(l, e))
  {
    hide WireInv, ReadPdu, Flat, Datas, ReadOutOk;
    var r := l.rx.r;
    if NeedsBytes(l.rx.r) {
      PullExactly(l, e);
      r := ReadPdu(l.rx.r, l.wire[l.rd..], e.hdr, e.body).0;
    }
    if !MustDie(l, e) {
      HeldBytes(l, l.sent[|l.accepted|].data, |r.buf.value|);
      assert l.sent[|l.accepted|].data[..|l.sent[|l.accepted|].data|] == l.sent[|l.accepted|].data;
    }
  }

  /** The reader's step in every run. In particular a body read that would block kills nothing and
      loses nothing, and neither does a PDU of up to the limit. */
  lemma ReaderExactly(ss: seq<Link>, es: seq<Event>, n: nat)
    requires Run(ss, es) && n < |es| && es[n].Readable? && !ss[n].rx.dead
    ensures ss[n + 1].rx.dead <==> MustDie(ss[n], es[n])
    ensures MustDie(ss[n], es[n]) ==> ss[n + 1].accepted == ss[n].accepted
    ensures !MustDie(ss[n], es[n]) ==> ReadsOn(ss[n], es[n], ss[n + 1])
  {
    RunInv(ss, es, n);
    assert Enabled(ss[n], es[n]) && ss[n + 1] == Step(ss[n], es[n]);
    hide Run, WireInv, ReadInv, Enabled, Step, MustDie, ReadsOn;
    ReaderStep(ss[n], es[n]);
  }

  /** Nothing else kills a reader but the failure of its own end. */
  lemma OnlyCallbacksKillReader(ss: seq<Link>, es: seq<Event>, n: nat)
    requires Run(ss, es) && n < |es| && !ss[n].rx.dead && ss[n + 1].rx.dead
    ensures es[n].RxDies? || es[n].Readable?
  {
    assert Enabled(ss[n], es[n]) && ss[n + 1] == Step(ss[n], es[n]);
    hide Run, Frame, ReadCb, ReadPdu, TryWrite, WriteCb;
  }

  // ---- The sender ----

  /** Call c, with PDU b, gets to start its frame. */
  ghost predicate Starts(l: Link, e: Event) {
    (e.Send? || e.Retry?) && !l.tx.dead && l.tx.w.buf.None?
  }

  function PduOf(l: Link, e: Event): Bytes
    requires e.Send? || (e.Retry? && e.c in l.calls && l.calls[e.c].Queued?)
  {
    if e.Send? then e.b else l.calls[e.c].b
  }

  function BytesWritten(io: WriteOut): nat {
    if io.Wrote? then io.n else 0
  }

  /** A call that starts its frame: the frame is its PDU with the length in the first word; as many of
      its bytes as `write` took are on the wire; the connection dies iff `write` failed; the call has
      returned true iff all of it was taken. */
  ghost predicate StartsFrame(l: Link, e: Event, b: Bytes, l1: Link)
    requires (e.Send? || e.Retry?) && IsPdu(b)
  {
    && |l1.sent| == |l.sent| + 1 && l1.sent[..|l.sent|] == l.sent
    && var s, k := l1.sent[|l.sent|], BytesWritten(e.io);
    && s.call == e.c && |s.data| == |b| && s.data[..HEADER_SZ] == EncU32(|b|) && s.data[HEADER_SZ..] == b[HEADER_SZ..]
    && k <= |b| && l1.wire == l.wire + s.data[..k] && l1.cut == k
    && (l1.tx.dead <==> e.io.WriteError?)
    && e.c in l1.calls
    && l1.calls[e.c] == if e.io.WriteError? then Owner(|l.sent|, true)
                        else if k == |b| then Finished(true, Some(|l.sent|))
                        else Owner(|l.sent|, false)
  }

  lemma SendExactly(ss: seq<Link>, es: seq<Event>, n: nat)
    requires Run(ss, es) && n < |es| && (es[n].Send? || es[n].Retry?)
    ensures es[n].Retry? ==> es[n].c in ss[n].calls && ss[n].calls[es[n].c].Queued?
    ensures var l, e, l1 := ss[n], es[n], ss[n + 1];
      var b := PduOf(l, e);
      && IsPdu(b) && e.c in l1.calls
      && (l.tx.dead ==> l1.calls[e.c] == Finished(false, None) && l1.wire == l.wire && l1.sent == l.sent && l1.tx.dead)
      && (!l.tx.dead && l.tx.w.buf.Some? ==>
            l1.calls[e.c] == Queued(b, false) && l1.wire == l.wire && l1.sent == l.sent && !l1.tx.dead)
      && (Starts(l, e) ==> StartsFrame(l, e, b, l1))
  {
    var l, e := ss[n], es[n];
    assert Enabled(l, e) && ss[n + 1] == Step(l, e);
    hide Run, Sleepers, ReadCb, ReadPdu, WriteCb;
    if Starts(l, e) {
      var b := PduOf(l, e);
      FrameOk(b);
      StartedFrame(l, b, e.io);
      hide Frame, EncU32, TryWrite;
    }
  }

  lemma StartedFrame(l: Link, b: Bytes, io: WriteOut)
    requires IsPdu(b) && WriteOutOk(Wbuf(Some(b), |b|, 0), io) && !l.tx.dead && l.tx.w.buf.None?
    ensures Frame(b)[..HEADER_SZ] == EncU32(|b|) && Frame(b)[HEADER_SZ..] == b[HEADER_SZ..] && |Frame(b)| == |b|
    ensures var (tx, out, r) := TryWrite(l.tx, b, io); var k := BytesWritten(io);
      && k <= |b| && out == Frame(b)[..k] && (tx.dead <==> io.WriteError?)
      && r == if io.WriteError? then Fails else if k == |b| then Returns(true) else Waits
  {
    assert Frame(b)[..0] == [];
  }

  /** A write callback puts on the wire what `write` takes of the bytes that the last frame lacks, and
      kills the connection iff it had to write and `write` failed. */
  lemma WritableExactly(ss: seq<Link>, es: seq<Event>, n: nat)
    requires Run(ss, es) && n < |es| && es[n].Writable?
    ensures var l, e, l1 := ss[n], es[n], ss[n + 1];
      var lacks := Rest(l.sent, l.cut); var k := if lacks == [] then 0 else BytesWritten(e.io);
      && l1.sent == l.sent && k <= |lacks| && l1.wire == l.wire + lacks[..k] && l1.cut == l.cut + k
      && (l1.tx.dead <==> lacks != [] && e.io.WriteError?)
      && (l1.tx.dead || (l.tx.w.buf.Some? && k == |lacks|) ==>
            forall c | IsOwner(l1.calls, c) :: l1.calls[c].awake)
  {
    RunInv(ss, es, n);
    var l, e := ss[n], es[n];
    assert Enabled(l, e) && ss[n + 1] == Step(l, e);
    hide Run, CallInv, ReadInv, WireInv, Flat, Datas, Frame, EncU32;
    BoundedCut(ss, es, n);
    WriteCbExactly(l.tx, l.sent, l.cut, e.io);
    hide WriteCb, BufInv;
  }

  lemma BoundedCut(ss: seq<Link>, es: seq<Event>, n: nat)
    requires Run(ss, es) && n <= |es|
    ensures ss[n].sent != [] ==> ss[n].cut <= |ss[n].sent[|ss[n].sent| - 1].data|
  {
    RunInv(ss, es, n);
    hide Run, CallInv, ReadInv;
    CutInBounds(ss[n].sent, ss[n].cut, ss[n].wire);
  }

  lemma WriteCbExactly(tx: Conn, sent: seq<Sent>, cut: nat, io: WriteOut)
    requires BufInv(tx, sent, cut) && !tx.dead && WriteOutOk(tx.w, io)
    requires sent != [] ==> cut <= |sent[|sent| - 1].data|
    ensures var (tx1, out, signal) := WriteCb(tx, io);
      var lacks := Rest(sent, cut); var k := if lacks == [] then 0 else BytesWritten(io);
      && k <= |lacks| && out == lacks[..k]
      && (tx1.dead <==> lacks != [] && io.WriteError?)
      && (tx1.dead || (tx.w.buf.Some? && k == |lacks|) ==> signal)
  {
    WriteCbKeepsBuf(tx, sent, cut, io);
    hide Frame, EncU32;
    if Writing(tx.w) {
      var d := sent[|sent| - 1].data;
      assert Rest(sent, cut) == d[cut..];
    }
  }

  /** The end of `send`: with the connection dead or the frame complete it returns, and returns true iff
      the connection lives; otherwise it waits on. */
  lemma ResumeExactly(ss: seq<Link>, es: seq<Event>, n: nat)
    requires Run(ss, es) && n < |es| && es[n].Resume?
    ensures IsOwner(ss[n].calls, es[n].c) && ss[n].sent != []
    ensures var l, c, l1 := ss[n], es[n].c, ss[n + 1];
      var i := |l.sent| - 1;
      && c in l1.calls && l1.wire == l.wire && l1.sent == l.sent && l1.tx.dead == l.tx.dead
      && l1.calls[c] == if !l.tx.dead && l.cut < |l.sent[i].data| then Owner(i, false) else Finished(!l.tx.dead, Some(i))
  {
    RunInv(ss, es, n);
    var l, e := ss[n], es[n];
    assert Enabled(l, e) && ss[n + 1] == Step(l, e);
    BoundedCut(ss, es, n);
    hide Run, WireInv, ReadInv, EncU32, ReadCb, ReadPdu, WriteCb;
    assert CallOk(l, e.c);
  }
}
