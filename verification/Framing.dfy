/** PDU framing over one direction of a TCP connection: any number of threads calling `send` on one
    end, the poll threads' callbacks on both ends, every outcome of every `read` and `write`, and
    failure of either end at any moment. */
module Framing {
  import opened RpcTypes
  import opened Codec
  import opened Connection

  /** A call of `send`: asleep on `send_wait_`, owner of the write buffer for frame `idx` (asleep on
      `send_complete_` or on its way out), or returned. */
  datatype Call =
    | Queued(b: Bytes, awake: bool)
    | Owner(idx: nat, awake: bool)
    | Finished(ok: bool, frame: Option<nat>)

  datatype Sent = Sent(call: nat, data: Bytes)

  /** `sent` lists the frames whose writing began, of which only the last can be incomplete, with
      `cut` bytes written; `wire` is every byte the sender's socket took, `rd` how many of them the
      reader has read, and `accepted` the PDUs `got_pdu` took. */
  datatype Link = Link(
    tx: Conn,
    closed: bool,
    calls: map<nat, Call>,
    sent: seq<Sent>,
    cut: nat,
    wire: Bytes,
    rx: Conn,
    rd: nat,
    accepted: seq<Bytes>)

  datatype Event =
    | Send(c: nat, b: Bytes, io: WriteOut)
    | Retry(c: nat, io: WriteOut)
    | Resume(c: nat)
    | Writable(io: WriteOut)
    | TxReadFails
    | Close
    | Readable(hdr: ReadOut, body: ReadOut, takes: bool)
    | RxDies

  const START := Link(NewConn(), false, map[], [], 0, [], NewConn(), 0, [])

  ghost function Sleepers(calls: map<nat, Call>): set<nat> {
    set c | c in calls && calls[c].Queued?
  }

  /** `pthread_cond_broadcast(&send_wait_)`. */
  function WakeQueued(calls: map<nat, Call>): map<nat, Call> {
    map c | c in calls :: if calls[c].Queued? then Queued(calls[c].b, true) else calls[c]
  }

  /** `pthread_cond_signal(&send_complete_)`, which only the owner of the write buffer waits on. */
  function WakeOwner(calls: map<nat, Call>): map<nat, Call> {
    map c | c in calls :: if calls[c].Owner? then Owner(calls[c].idx, true) else calls[c]
  }

  function Broadcast(tx: Conn, calls: map<nat, Call>): map<nat, Call> {
    if tx.waiters > 0 then WakeQueued(calls) else calls
  }

  /** The state after a pass of `send` by call c, given the result of that pass. */
  function Sending(l: Link, c: nat, b: Bytes, tx: Conn, out: Bytes, r: SendResult): Link
    requires IsPdu(b)
  {
    if r.Blocks? then
      l.(tx := tx, calls := l.calls[c := Queued(b, false)])
    else if l.tx.dead then
      l.(tx := tx, calls := l.calls[c := Finished(false, None)])
    else
      var i := |l.sent|;
      var l1 := l.(tx := tx, sent := l.sent + [Sent(c, Frame(b))], cut := |out|, wire := l.wire + out);
      if r.Returns? then l1.(calls := Broadcast(tx, l.calls[c := Finished(r.ok, Some(i))]))
      else l1.(calls := l.calls[c := Owner(i, r.Fails?)])
  }

  predicate Enabled(l: Link, e: Event) {
    match e
    case Send(c, b, io) => c !in l.calls && IsPdu(b) && WriteOutOk(Wbuf(Some(b), |b|, 0), io)
    case Retry(c, io) =>
      && c in l.calls && l.calls[c].Queued? && IsPdu(l.calls[c].b) && l.tx.waiters > 0
      && WriteOutOk(Wbuf(Some(l.calls[c].b), |l.calls[c].b|, 0), io)
    case Resume(c) => c in l.calls && l.calls[c].Owner?
    case Writable(io) => !l.tx.dead && WbufOk(l.tx.w) && WriteOutOk(l.tx.w, io)
    case TxReadFails => !l.tx.dead
    case Close => !l.tx.dead
    case Readable(hdr, body, _) =>
      l.rd <= |l.wire| && (!l.rx.dead && NeedsBytes(l.rx.r) ==> ReadOutOk(l.rx.r, l.wire[l.rd..], hdr, body))
    case RxDies => true
  }

  function Step(l: Link, e: Event): Link
    requires Enabled(l, e)
  {
    match e
    case Send(c, b, io) =>
      var (tx, out, r) := SendEnter(l.tx, b, io);
      Sending(l, c, b, tx, out, r)
    case Retry(c, io) =>
      var (tx, out, r) := SendRetry(l.tx, l.calls[c].b, io);
      Sending(l, c, l.calls[c].b, tx, out, r)
    case Resume(c) =>
      var (tx, r) := SendResume(l.tx);
      if r.Returns? then
        l.(tx := tx, calls := Broadcast(tx, l.calls[c := Finished(r.ok, Some(l.calls[c].idx))]))
      else l.(calls := l.calls[c := Owner(l.calls[c].idx, false)])
    case Writable(io) =>
      var (tx, out, signal) := WriteCb(l.tx, io);
      l.(tx := tx, cut := l.cut + |out|, wire := l.wire + out, calls := if signal then WakeOwner(l.calls) else l.calls)
    case TxReadFails => l.(tx := l.tx.(dead := true), calls := WakeOwner(l.calls))
    case Close => l.(tx := l.tx.(dead := true), closed := true)
    case Readable(hdr, body, takes) =>
      var (rx, rest, pdu) := ReadCb(l.rx, l.wire[l.rd..], hdr, body, takes);
      l.(rx := rx, rd := |l.wire| - |rest|, accepted := if pdu.Some? then l.accepted + [pdu.value] else l.accepted)
    case RxDies => l.(rx := l.rx.(dead := true))
  }

  ghost predicate Run(ss: seq<Link>, es: seq<Event>) {
    && |ss| == |es| + 1 && ss[0] == START
    && forall i | 0 <= i < |es| :: Enabled(ss[i], es[i]) && ss[i + 1] == Step(ss[i], es[i])
  }

  // ---- Byte streams ----

  function Flat(ds: seq<Bytes>): Bytes {
    if ds == [] then [] else Flat(ds[..|ds| - 1]) + ds[|ds| - 1]
  }

  function Datas(sent: seq<Sent>): (ds: seq<Bytes>)
    ensures |ds| == |sent|
  {
    seq(|sent|, i requires 0 <= i < |sent| => sent[i].data)
  }

  lemma FlatAdd(ds: seq<Bytes>, d: Bytes)
    ensures Flat(ds + [d]) == Flat(ds) + d
  {
    assert (ds + [d])[..|ds|] == ds;
  }

  lemma {:induction false} FlatPrefix(ds: seq<Bytes>, m: nat)
    requires m <= |ds|
    ensures Flat(ds[..m]) <= Flat(ds)
  {
    if m < |ds| {
      var init := ds[..|ds| - 1];
      FlatPrefix(init, m);
      assert init[..m] == ds[..m];
    } else {
      assert ds[..m] == ds;
    }
  }

  /** Frame m stands in the stream right after the frames before it. */
  lemma FlatAt(ds: seq<Bytes>, m: nat)
    requires m < |ds|
    ensures |Flat(ds[..m])| + |ds[m]| == |Flat(ds[..m + 1])| <= |Flat(ds)|
    ensures Flat(ds[..m + 1]) == Flat(ds[..m]) + ds[m]
    ensures Flat(ds)[|Flat(ds[..m])|..|Flat(ds[..m])| + |ds[m]|] == ds[m]
  {
    assert ds[..m + 1] == ds[..m] + [ds[m]];
    FlatAdd(ds[..m], ds[m]);
    FlatPrefix(ds, m + 1);
  }

  // ---- Invariant ----

  predicate IsFrame(d: Bytes) {
    IsPdu(d) && d[..HEADER_SZ] == EncU32(|d|)
  }

  /** What the last frame started still lacks on the wire. */
  function Rest(sent: seq<Sent>, cut: nat): Bytes {
    if sent == [] || cut > |sent[|sent| - 1].data| then [] else sent[|sent| - 1].data[cut..]
  }

  /** The wire is the frames in order, less what the last one still lacks. */
  ghost predicate WireInv(sent: seq<Sent>, cut: nat, wire: Bytes) {
    && (forall i | 0 <= i < |sent| :: IsFrame(sent[i].data))
    && (sent != [] ==> cut <= |sent[|sent| - 1].data|)
    && Flat(Datas(sent)) == wire + Rest(sent, cut)
  }

  /** What is lacking is in the write buffer, or will never be sent. */
  ghost predicate BufInv(tx: Conn, sent: seq<Sent>, cut: nat) {
    && WbufOk(tx.w)
    && (tx.w.buf.Some? ==> sent != [])
    && (tx.w.buf.Some? && !Writing(tx.w) ==> tx.dead)
    && (Writing(tx.w) ==>
        && tx.w.solong == cut && Frame(tx.w.buf.value) == sent[|sent| - 1].data
        && (cut > 0 ==> tx.w.buf.value == sent[|sent| - 1].data))
    && (Rest(sent, cut) != [] ==> tx.dead || Writing(tx.w))
  }

  /** Every frame belongs to one call, and only the last frame's call can own the write buffer. */
  ghost predicate CallInv(l: Link) {
    && (forall i | 0 <= i < |l.sent| :: SentBy(l, i))
    && (forall c | c in l.calls :: CallOk(l, c))
    && (l.tx.w.buf.Some? && l.sent != [] ==> IsOwner(l.calls, l.sent[|l.sent| - 1].call))
    && l.tx.waiters == |Sleepers(l.calls)|
    && (l.closed ==> l.tx.dead)
  }

  predicate IsOwner(calls: map<nat, Call>, c: nat) {
    c in calls && calls[c].Owner?
  }

  ghost predicate SentBy(l: Link, i: nat)
    requires i < |l.sent|
  {
    && l.sent[i].call in l.calls
    && match l.calls[l.sent[i].call]
       case Queued(_, _) => false
       case Owner(j, _) => j == i
       case Finished(_, j) => j == Some(i)
  }

  ghost predicate CallOk(l: Link, c: nat)
    requires c in l.calls
  {
    match l.calls[c]
    case Queued(b, awake) => IsPdu(b) && (awake || l.tx.w.buf.Some?)
    case Owner(i, awake) =>
      && i + 1 == |l.sent| && l.sent[i].call == c && l.tx.w.buf.Some?
      && (awake || l.closed || (!l.tx.dead && l.cut < |l.sent[i].data|))
    case Finished(ok, i) =>
      && (i.Some? ==> i.value < |l.sent| && l.sent[i.value].call == c)
      && (if ok then i.Some? && (i.value + 1 == |l.sent| ==> l.cut == |l.sent[i.value].data|) else l.tx.dead)
  }

  /** The reader has handed over the first frames, and its buffer holds the start of the next. */
  ghost predicate ReadInv(sent: seq<Sent>, wire: Bytes, rx: Conn, rd: nat, accepted: seq<Bytes>) {
    var m := |accepted|;
    && m <= |sent| && accepted == Datas(sent)[..m] && |Flat(accepted)| <= |wire|
    && rd <= |wire|
    && (!rx.dead ==>
        && rd == |Flat(accepted)| + ReadSoFar(rx.r)
        && (if rx.r.sz == 0 then rx.r == NO_READ else m < |sent| && Partial(rx.r, sent[m].data)))
  }

  /** The read buffer holds the first bytes of frame d, at least its header. */
  ghost predicate Partial(r: Rbuf, d: Bytes) {
    && r.sz == |d| && r.buf.Some? && HEADER_SZ <= |r.buf.value| <= |d|
    && r.buf.value == d[..|r.buf.value|]
  }

  ghost predicate Inv(l: Link) {
    && WireInv(l.sent, l.cut, l.wire) && BufInv(l.tx, l.sent, l.cut) && CallInv(l)
    && ReadInv(l.sent, l.wire, l.rx, l.rd, l.accepted)
  }

  // ---- Waking ----

  lemma SleeperCount(calls: map<nat, Call>, c: nat, k: Call)
    ensures |Sleepers(calls[c := k])|
      == |Sleepers(calls)| - (if c in Sleepers(calls) then 1 else 0) + (if k.Queued? then 1 else 0)
  {
    var s, t := Sleepers(calls), Sleepers(calls[c := k]);
    forall d ensures d in t <==> if d == c then k.Queued? else d in s {
      QueuedAreSleepers(calls, d);
      QueuedAreSleepers(calls[c := k], d);
    }
    SetChange(s, t, c, k.Queued?);
  }

  lemma SetChange(s: set<nat>, t: set<nat>, c: nat, added: bool)
    requires forall d :: d in t <==> if d == c then added else d in s
    ensures |t| == |s| - (if c in s then 1 else 0) + (if added then 1 else 0)
  {
    if added {
      assert t == (s - {c}) + {c};
    } else {
      assert t == s - {c};
    }
  }

  lemma QueuedAreSleepers(calls: map<nat, Call>, c: nat)
    ensures c in Sleepers(calls) <==> c in calls && calls[c].Queued?
  {
  }

  lemma WakingKeepsSleepers(calls: map<nat, Call>)
    ensures Sleepers(WakeQueued(calls)) == Sleepers(calls) == Sleepers(WakeOwner(calls))
  {
  }

  /** With no sleeper, waking them all changes nothing: the test of `waiters_` is harmless. */
  lemma BroadcastWakesAll(tx: Conn, calls: map<nat, Call>)
    requires tx.waiters == |Sleepers(calls)|
    ensures Broadcast(tx, calls) == WakeQueued(calls)
    ensures Sleepers(Broadcast(tx, calls)) == Sleepers(calls)
  {
    WakingKeepsSleepers(calls);
    if tx.waiters == 0 {
      assert forall c | c in calls :: c !in Sleepers(calls);
      assert WakeQueued(calls) == calls;
    }
  }

  // ---- The sender's steps: bytes ----

  lemma FrameOk(b: Bytes)
    requires IsPdu(b)
    ensures IsFrame(Frame(b)) && Frame(Frame(b)) == Frame(b)
  {
    var f := Frame(b);
    assert f[..HEADER_SZ] == EncU32(|b|);
    assert f[HEADER_SZ..] == b[HEADER_SZ..];
  }

  lemma DatasAdd(sent: seq<Sent>, s: Sent)
    ensures Datas(sent + [s]) == Datas(sent) + [s.data]
  {
  }

  /** The reader's part of the invariant only looks at what is already on the wire. */
  lemma ReadInvGrows(l: Link, l1: Link)
    requires ReadInv(l.sent, l.wire, l.rx, l.rd, l.accepted)
    requires l1.rx == l.rx && l1.rd == l.rd && l1.accepted == l.accepted
    requires l.sent <= l1.sent && l.wire <= l1.wire
    ensures ReadInv(l1.sent, l1.wire, l1.rx, l1.rd, l1.accepted)
  {
    hide Flat;
    var m := |l.accepted|;
    assert Datas(l1.sent)[..m] == Datas(l.sent)[..m];
  }

  /** A pass of `writepdu` moves some of what is lacking to the wire. */
  lemma WriteKeepsWire(sent: seq<Sent>, cut: nat, wire: Bytes, n: nat)
    requires WireInv(sent, cut, wire) && n <= |Rest(sent, cut)|
    ensures WireInv(sent, cut + n, wire + Rest(sent, cut)[..n])
    ensures Rest(sent, cut + n) == Rest(sent, cut)[n..]
  {
    hide Flat, Datas, IsFrame;
    var rest := Rest(sent, cut);
    if sent != [] {
      var d := sent[|sent| - 1].data;
      assert d[cut..][n..] == d[cut + n..];
    }
    assert (wire + rest[..n]) + rest[n..] == wire + rest;
  }

  /** A new frame may start once the last one is complete. */
  lemma StartKeepsWire(sent: seq<Sent>, cut: nat, wire: Bytes, s: Sent)
    requires WireInv(sent, cut, wire) && Rest(sent, cut) == [] && IsFrame(s.data)
    ensures WireInv(sent + [s], 0, wire)
    ensures Rest(sent + [s], 0) == s.data
  {
    hide Flat, IsFrame;
    DatasAdd(sent, s);
    FlatAdd(Datas(sent), s.data);
    assert wire + [] == wire;
  }

  /** What one call of `writepdu` does to the buffer of frame d. */
  lemma WritePduKeepsBuf(w: Wbuf, io: WriteOut, d: Bytes, cut: nat)
    requires Writing(w) && WriteOutOk(w, io) && w.solong == cut
    requires Frame(w.buf.value) == d && (cut > 0 ==> w.buf.value == d)
    ensures var (w1, out, ok) := WritePdu(w, io);
      && |out| <= |d| - cut && out == d[cut..][..|out|]
      && (ok ==> Writing(w1) && w1.solong == cut + |out| && Frame(w1.buf.value) == d
                 && (cut + |out| > 0 ==> w1.buf.value == d))
      && (!ok ==> out == [] && w1.buf.Some? && w1.sz == 0 && w1.solong == -1)
  {
    FrameOk(w.buf.value);
    hide Frame, EncU32;
    var out := WritePdu(w, io).1;
    assert d[cut..cut + |out|] == d[cut..][..|out|];
  }

  lemma TryWriteKeepsBytes(l: Link, c: nat, b: Bytes, io: WriteOut)
    requires Inv(l) && IsPdu(b) && WriteOutOk(Wbuf(Some(b), |b|, 0), io)
    requires !l.tx.dead && l.tx.w.buf.None?
    ensures var (tx, out, r) := TryWrite(l.tx, b, io);
      var sent := l.sent + [Sent(c, Frame(b))];
      && WireInv(sent, |out|, l.wire + out) && BufInv(tx, sent, |out|)
      && (r == Waits ==> |out| < |Frame(b)|)
      && (r == Returns(true) ==> |out| == |Frame(b)|)
      && !r.Blocks? && r != Returns(false)
      && (r.Fails? ==> tx.dead) && (!r.Fails? ==> tx.dead == l.tx.dead)
      && (tx.w.buf.Some? <==> !r.Returns?)
  {
    hide CallInv, ReadInv, Flat, Datas, Frame, EncU32;
    FrameOk(b);
    var w, d := Wbuf(Some(b), |b|, 0), Frame(b);
    WritePduKeepsBuf(w, io, d, 0);
    StartKeepsWire(l.sent, l.cut, l.wire, Sent(c, d));
    var out := WritePdu(w, io).1;
    hide WritePdu;
    WriteKeepsWire(l.sent + [Sent(c, d)], 0, l.wire, |out|);
    assert d[0..] == d;
  }

  lemma WriteCbKeepsBuf(tx: Conn, sent: seq<Sent>, cut: nat, io: WriteOut)
    requires BufInv(tx, sent, cut) && !tx.dead && WriteOutOk(tx.w, io)
    requires sent != [] ==> cut <= |sent[|sent| - 1].data|
    ensures var (tx1, out, signal) := WriteCb(tx, io);
      && |out| <= |Rest(sent, cut)| && out == Rest(sent, cut)[..|out|]
      && BufInv(tx1, sent, cut + |out|)
      && tx1.waiters == tx.waiters && (tx.w.buf.Some? <==> tx1.w.buf.Some?)
      && (!signal ==> !tx1.dead && (tx1.w.buf.Some? ==> cut + |out| < |sent[|sent| - 1].data|))
  {
    if Writing(tx.w) {
      var d := sent[|sent| - 1].data;
      WritePduKeepsBuf(tx.w, io, d, cut);
      hide Frame, EncU32, WritePdu;
      var (w1, out, ok) := WritePdu(tx.w, io);
      assert Rest(sent, cut) == d[cut..];
    } else {
      assert WriteCb(tx, io) == (tx, [], false);
    }
  }

  lemma WritableKeepsBytes(l: Link, io: WriteOut)
    requires Inv(l) && Enabled(l, Writable(io))
    ensures var l1 := Step(l, Writable(io));
      && WireInv(l1.sent, l1.cut, l1.wire) && BufInv(l1.tx, l1.sent, l1.cut) && l.wire <= l1.wire
      && l1.tx.waiters == l.tx.waiters && (l.tx.w.buf.Some? <==> l1.tx.w.buf.Some?)
      && l.cut <= l1.cut && (l1.sent != [] ==> l1.cut <= |l1.sent[|l1.sent| - 1].data|)
      && (l1.calls == WakeOwner(l.calls)
          || (l1.calls == l.calls && !l1.tx.dead
              && (l1.tx.w.buf.Some? ==> l1.cut < |l1.sent[|l1.sent| - 1].data|)))
  {
    hide CallInv, ReadInv, WireInv, BufInv, WriteCb, Flat, Datas, Frame, EncU32;
    CutInBounds(l.sent, l.cut, l.wire);
    WriteCbKeepsBuf(l.tx, l.sent, l.cut, io);
    WriteKeepsWire(l.sent, l.cut, l.wire, |WriteCb(l.tx, io).1|);
    CutInBounds(l.sent, l.cut + |WriteCb(l.tx, io).1|, l.wire + WriteCb(l.tx, io).1);
  }

  lemma CutInBounds(sent: seq<Sent>, cut: nat, wire: Bytes)
    requires WireInv(sent, cut, wire)
    ensures sent != [] ==> cut <= |sent[|sent| - 1].data|
  {
  }

  // ---- The sender's steps: calls ----

  ghost predicate MayTry(l: Link, c: nat, b: Bytes) {
    IsPdu(b) && (c in l.calls ==> l.calls[c].Queued?)
  }

  /** The count of waiters after a pass of `send` by call c. */
  ghost predicate Recounted(l: Link, c: nat, tx: Conn, r: SendResult) {
    tx.waiters + (if c in l.calls then 1 else 0) == l.tx.waiters + (if r.Blocks? then 1 else 0)
  }

  lemma StartKeepsCalls(l: Link, c: nat, b: Bytes, tx: Conn, out: Bytes, r: SendResult)
    requires CallInv(l) && MayTry(l, c, b) && Recounted(l, c, tx, r)
    requires !l.tx.dead && l.tx.w.buf.None? && !r.Blocks? && r != Returns(false)
    requires r == Waits ==> |out| < |Frame(b)|
    requires r == Returns(true) ==> |out| == |Frame(b)|
    requires (r.Fails? ==> tx.dead) && (!r.Fails? ==> !tx.dead) && (tx.w.buf.Some? <==> !r.Returns?)
    ensures CallInv(Sending(l, c, b, tx, out, r))
  {
    hide Frame, Flat, Datas, Sleepers;
    var i := |l.sent|;
    var k := if r.Returns? then Finished(r.ok, Some(i)) else Owner(i, r.Fails?);
    var l1 := Sending(l, c, b, tx, out, r);
    QueuedAreSleepers(l.calls, c);
    SleeperCount(l.calls, c, k);
    BroadcastWakesAll(tx, l.calls[c := k]);
    forall j | 0 <= j < |l1.sent| ensures SentBy(l1, j) {
      assert j < i ==> SentBy(l, j) && l.sent[j].call != c;
    }
    forall c1 | c1 in l1.calls ensures CallOk(l1, c1) {
      assert c1 != c ==> CallOk(l, c1) && !l.calls[c1].Owner?;
    }
  }

  /** A pass of `send` that finds the buffer in use or the connection dead. */
  lemma NoStartKeepsCalls(l: Link, c: nat, b: Bytes, tx: Conn, r: SendResult)
    requires CallInv(l) && MayTry(l, c, b) && Recounted(l, c, tx, r)
    requires tx.w == l.tx.w && tx.dead == l.tx.dead
    requires if l.tx.dead then r == Returns(false) else l.tx.w.buf.Some? && r == Blocks
    ensures CallInv(Sending(l, c, b, tx, [], r))
  {
    hide Flat, Datas, Sleepers;
    var l1 := Sending(l, c, b, tx, [], r);
    QueuedAreSleepers(l.calls, c);
    SleeperCount(l.calls, c, if r.Blocks? then Queued(b, false) else Finished(false, None));
    forall i | 0 <= i < |l1.sent| ensures SentBy(l1, i) {
      assert SentBy(l, i) && l.sent[i].call != c;
    }
    forall c1 | c1 in l1.calls ensures CallOk(l1, c1) {
      assert c1 != c ==> CallOk(l, c1);
    }
  }

  lemma WaitersOnlyCounted(tx: Conn, b: Bytes, io: WriteOut)
    requires IsPdu(b) && WriteOutOk(Wbuf(Some(b), |b|, 0), io)
    ensures TryWrite(tx, b, io).0.waiters == tx.waiters
  {
    hide Frame;
  }

  lemma SendingKeepsInv(l: Link, c: nat, b: Bytes, io: WriteOut, tx: Conn)
    requires Inv(l) && MayTry(l, c, b) && WriteOutOk(Wbuf(Some(b), |b|, 0), io)
    requires var (tx0, out, r) := TryWrite(l.tx, b, io);
      Recounted(l, c, tx, r) && tx.w == tx0.w && tx.dead == tx0.dead
    ensures var (_, out, r) := TryWrite(l.tx, b, io); Inv(Sending(l, c, b, tx, out, r))
  {
    hide CallInv, WireInv, ReadInv, WritePdu, Frame, Flat, Datas;
    var (tx0, out, r) := TryWrite(l.tx, b, io);
    var l1 := Sending(l, c, b, tx, out, r);
    if !l.tx.dead && l.tx.w.buf.None? {
      TryWriteKeepsBytes(l, c, b, io);
      StartKeepsCalls(l, c, b, tx, out, r);
    } else {
      NoStartKeepsCalls(l, c, b, tx, r);
    }
    ReadInvGrows(l, l1);
  }

  lemma ResumeKeepsInv(l: Link, c: nat)
    requires Inv(l) && Enabled(l, Resume(c))
    ensures Inv(Step(l, Resume(c)))
  {
    hide WireInv, ReadInv, Flat, Datas, Sleepers, Frame;
    var l1 := Step(l, Resume(c));
    var (tx, r) := SendResume(l.tx);
    var i := l.calls[c].idx;
    assert CallOk(l, c);
    QueuedAreSleepers(l.calls, c);
    var k := if r.Returns? then Finished(r.ok, Some(i)) else Owner(i, false);
    SleeperCount(l.calls, c, k);
    BroadcastWakesAll(tx, l.calls[c := k]);
    forall j | 0 <= j < |l1.sent| ensures SentBy(l1, j) {
      assert SentBy(l, j);
    }
    forall c1 | c1 in l1.calls ensures CallOk(l1, c1) {
      assert CallOk(l, c1);
    }
  }

  /** Steps that touch no call, except to wake the owner. */
  lemma WakingKeepsCalls(l: Link, l1: Link)
    requires CallInv(l)
    requires l1.sent == l.sent && l.cut <= l1.cut && l1.tx.waiters == l.tx.waiters
    requires l.sent != [] ==> l1.cut <= |l.sent[|l.sent| - 1].data|
    requires l.tx.w.buf.Some? <==> l1.tx.w.buf.Some?
    requires (l.tx.dead ==> l1.tx.dead) && (l.closed ==> l1.closed) && (l1.closed ==> l1.tx.dead)
    requires
      || l1.calls == WakeOwner(l.calls)
      || (l1.calls == l.calls && l1.closed)
      || (l1.calls == l.calls && l1.tx.dead == l.tx.dead
          && (l1.cut == l.cut || (l1.tx.w.buf.Some? && l.sent != [] ==> l1.cut < |l.sent[|l.sent| - 1].data|)))
    ensures CallInv(l1)
  {
    hide Flat, Datas, Sleepers;
    WakingKeepsSleepers(l.calls);
    forall j | 0 <= j < |l1.sent| ensures SentBy(l1, j) {
      assert SentBy(l, j);
    }
    forall c1 | c1 in l1.calls ensures CallOk(l1, c1) {
      assert CallOk(l, c1);
    }
  }

  lemma WritableKeepsInv(l: Link, io: WriteOut)
    requires Inv(l) && Enabled(l, Writable(io))
    ensures Inv(Step(l, Writable(io)))
  {
    hide CallOk, SentBy, Sleepers, ReadInv, WriteCb, WireInv, BufInv, Flat, Datas, Frame;
    var l1 := Step(l, Writable(io));
    WritableKeepsBytes(l, io);
    ReadInvGrows(l, l1);
    WakingKeepsCalls(l, l1);
  }

  lemma DyingKeepsInv(l: Link, e: Event)
    requires Inv(l) && Enabled(l, e) && (e.TxReadFails? || e.Close? || e.RxDies?)
    ensures Inv(Step(l, e))
  {
    hide Flat, Datas, Frame, CallOk, SentBy, Sleepers;
    WakingKeepsCalls(l, Step(l, e));
  }
  // ---- The reader's step ----

  /** A header read in full is the length word of the next frame. */
  lemma HeaderIsLength(d: Bytes, h: Bytes)
    requires IsFrame(d) && h == d[..HEADER_SZ]
    ensures HeaderSize(h) == |d|
  {
    U32RoundTrip(h, 0, |d|);
  }

  lemma SliceOfSlice(all: Bytes, wire: Bytes, rest: Bytes, d: Bytes, f: nat, k: nat, n: nat)
    requires all == wire + rest && f + |d| <= |all| && all[f..f + |d|] == d
    requires k + n <= |d| && f + k + n <= |wire|
    ensures wire[f + k..][..n] == d[k..k + n]
  {
    assert wire[f + k..][..n] == wire[f + k..f + k + n];
    assert wire == all[..|wire|];
    assert all[..|wire|][f + k..f + k + n] == all[f + k..f + k + n];
    assert all[f..f + |d|][k..k + n] == all[f + k..f + k + n];
  }

  /** The unread bytes start with what frame m still lacks, as far as it is on the wire. */
  lemma NextBytes(sent: seq<Sent>, cut: nat, wire: Bytes, m: nat, k: nat, n: nat)
    requires WireInv(sent, cut, wire) && m < |sent| && k + n <= |sent[m].data|
    requires |Flat(Datas(sent)[..m])| + k + n <= |wire|
    ensures wire[|Flat(Datas(sent)[..m])| + k..][..n] == sent[m].data[k..k + n]
  {
    hide IsFrame, Flat;
    var ds := Datas(sent);
    FlatAt(ds, m);
    SliceOfSlice(Flat(ds), wire, Rest(sent, cut), ds[m], |Flat(ds[..m])|, k, n);
  }

  /** Without a next frame there is nothing to read. */
  lemma NothingUnread(sent: seq<Sent>, cut: nat, wire: Bytes)
    requires WireInv(sent, cut, wire)
    ensures |Flat(Datas(sent)[..|sent|])| >= |wire|
  {
    hide Flat;
    assert Datas(sent)[..|sent|] == Datas(sent);
  }

  /** Reading on in frame d, of which the buffer has the first k bytes. */
  lemma ReadBodyKeeps(r: Rbuf, input: Bytes, body: ReadOut, d: Bytes)
    requires Partial(r, d) && BodyOutOk(r, |input|, body)
    requires body.Got? ==> input[..body.n] == d[|r.buf.value|..|r.buf.value| + body.n]
    ensures var (r1, rest, ok) := ReadBody(r, input, body);
      && |rest| <= |input|
      && (if ok then Partial(r1, d) && |input| - |rest| == |r1.buf.value| - |r.buf.value| else r1 == NO_READ)
  {
    if body.Got? {
      var k := |r.buf.value|;
      assert d[..k + body.n] == d[..k] + d[k..k + body.n];
    }
  }

  /** Reading the header of the next frame, and as much of its body as came. */
  lemma ReadNewKeeps(l: Link, hdr: ReadOut, body: ReadOut)
    requires WireInv(l.sent, l.cut, l.wire) && |l.accepted| < |l.sent|
    requires l.accepted == Datas(l.sent)[..|l.accepted|] && l.rd == |Flat(l.accepted)| <= |l.wire|
    requires hdr == Got(HEADER_SZ) && ReadOutOk(NO_READ, l.wire[l.rd..], hdr, body)
    ensures var (r, rest, ok) := ReadPdu(NO_READ, l.wire[l.rd..], hdr, body);
      && |rest| <= |l.wire|
      && (if ok then Partial(r, l.sent[|l.accepted|].data) && |l.wire| - |rest| == l.rd + |r.buf.value|
          else r == NO_READ)
  {
    hide Flat, HeaderSize, EncU32;
    var m := |l.accepted|;
    var d := l.sent[m].data;
    var input := l.wire[l.rd..];
    NextBytes(l.sent, l.cut, l.wire, m, 0, HEADER_SZ);
    var h, rest := input[..HEADER_SZ], input[HEADER_SZ..];
    HeaderIsLength(d, h);
    if |d| <= MAX_PDU {
      if body.Got? {
        NextBytes(l.sent, l.cut, l.wire, m, HEADER_SZ, body.n);
        assert l.wire[l.rd + HEADER_SZ..] == rest;
      }
      hide WireInv, Datas;
      ReadBodyKeeps(Rbuf(Some(h), |d|), rest, body, d);
    }
  }

  /** Reading moves the buffer along the frame it is in, or into the next one. */
  lemma ReadPduKeeps(l: Link, hdr: ReadOut, body: ReadOut)
    requires WireInv(l.sent, l.cut, l.wire) && ReadInv(l.sent, l.wire, l.rx, l.rd, l.accepted) && !l.rx.dead
    requires ReadOutOk(l.rx.r, l.wire[l.rd..], hdr, body)
    ensures var (r, rest, ok) := ReadPdu(l.rx.r, l.wire[l.rd..], hdr, body);
      && |rest| <= |l.wire|
      && (if ok then |l.accepted| < |l.sent| && Partial(r, l.sent[|l.accepted|].data)
                     && |l.wire| - |rest| == |Flat(l.accepted)| + |r.buf.value|
          else r == NO_READ)
  {
    hide Flat, HeaderSize, EncU32;
    var m := |l.accepted|;
    if m == |l.sent| {
      NothingUnread(l.sent, l.cut, l.wire);
    } else if l.rx.r.sz != 0 {
      if body.Got? {
        NextBytes(l.sent, l.cut, l.wire, m, ReadSoFar(l.rx.r), body.n);
      }
      ReadBodyKeeps(l.rx.r, l.wire[l.rd..], body, l.sent[m].data);
    } else if hdr == Got(HEADER_SZ) {
      ReadNewKeeps(l, hdr, body);
    }
  }

  lemma ReadKeeps(l: Link, e: Event)
    requires WireInv(l.sent, l.cut, l.wire) && ReadInv(l.sent, l.wire, l.rx, l.rd, l.accepted)
    requires e.Readable? && Enabled(l, e)
    ensures var l1 := Step(l, e); ReadInv(l1.sent, l1.wire, l1.rx, l1.rd, l1.accepted)
  {
    hide WireInv, ReadPdu, Flat;
    if !l.rx.dead {
      var ds, m := Datas(l.sent), |l.accepted|;
      var r := l.rx.r;
      if NeedsBytes(l.rx.r) {
        ReadPduKeeps(l, e.hdr, e.body);
        r := ReadPdu(l.rx.r, l.wire[l.rd..], e.hdr, e.body).0;
      }
      if r.buf.Some? {
        FlatAt(ds, m);
        assert ds[..m] + [ds[m]] == ds[..m + 1];
        assert |r.buf.value| == |ds[m]| ==> r.buf.value == ds[m];
      }
    }
  }

  lemma ReadableKeepsInv(l: Link, e: Event)
    requires Inv(l) && e.Readable? && Enabled(l, e)
    ensures Inv(Step(l, e))
  {
    hide ReadInv, ReadCb, ReadOutOk, Flat, Datas, CallOk, SentBy, Sleepers;
    ReadKeeps(l, e);
    WakingKeepsCalls(l, Step(l, e));
  }

  lemma StepKeepsInv(l: Link, e: Event)
    requires Inv(l) && Enabled(l, e)
    ensures Inv(Step(l, e))
  {
    hide Inv, TryWrite, ReadCb, WriteCb, Sending;
    match e
    case Send(c, b, io) =>
      WaitersOnlyCounted(l.tx, b, io);
      SendingKeepsInv(l, c, b, io, SendEnter(l.tx, b, io).0);
    case Retry(c, io) =>
      WaitersOnlyCounted(l.tx, l.calls[c].b, io);
      SendingKeepsInv(l, c, l.calls[c].b, io, SendRetry(l.tx, l.calls[c].b, io).0);
    case Resume(c) => ResumeKeepsInv(l, c);
    case Writable(io) => WritableKeepsInv(l, io);
    case Readable(_, _, _) => ReadableKeepsInv(l, e);
    case TxReadFails => DyingKeepsInv(l, e);
    case Close => DyingKeepsInv(l, e);
    case RxDies => DyingKeepsInv(l, e);
  }

  // ---- Theorems over whole runs ----

  lemma {:induction false} RunInv(ss: seq<Link>, es: seq<Event>, n: nat)
    requires Run(ss, es) && n <= |es|
    ensures Inv(ss[n])
  {
    if n == 0 {
      var l := ss[0];
      assert Sleepers(l.calls) == {};
    } else {
      RunInv(ss, es, n - 1);
      hide Inv, Step, Enabled;
      StepKeepsInv(ss[n - 1], es[n - 1]);
      assert ss[n] == Step(ss[n - 1], es[n - 1]);
    }
  }

  /** Whatever the partial reads and writes, the PDUs handed over are the first frames sent, whole,
      unmerged and in order; and while the reader lives, the bytes it has read are those PDUs and the
      contents of its buffer, so a PDU that was refused is neither lost nor delivered twice. */
  lemma AcceptedArePrefix(ss: seq<Link>, es: seq<Event>, n: nat)
    requires Run(ss, es) && n <= |es|
    ensures var l := ss[n];
      && |l.accepted| <= |l.sent| && l.accepted == Datas(l.sent)[..|l.accepted|]
      && Flat(l.accepted) <= l.wire <= Flat(Datas(l.sent))
      && l.rd <= |l.wire|
      && (!l.rx.dead ==>
          l.wire[..l.rd] == Flat(l.accepted) + (if l.rx.r.buf.Some? then l.rx.r.buf.value else []))
  {
    RunInv(ss, es, n);
    hide Run, CallInv, BufInv;
    var l := ss[n];
    FlatPrefix(Datas(l.sent), |l.accepted|);
    hide Flat;
    assert l.wire == Flat(Datas(l.sent))[..|l.wire|];
    if !l.rx.dead {
      ReadBytes(l);
    }
  }

  lemma ReadBytes(l: Link)
    requires WireInv(l.sent, l.cut, l.wire) && ReadInv(l.sent, l.wire, l.rx, l.rd, l.accepted) && !l.rx.dead
    requires Flat(l.accepted) <= l.wire
    ensures l.wire[..l.rd] == Flat(l.accepted) + (if l.rx.r.buf.Some? then l.rx.r.buf.value else [])
  {
    hide Flat, WireInv;
    var f := |Flat(l.accepted)|;
    if l.rx.r.sz != 0 {
      var k := |l.rx.r.buf.value|;
      NextBytes(l.sent, l.cut, l.wire, |l.accepted|, 0, k);
      assert l.wire[..f + k] == l.wire[..f] + l.wire[f..][..k];
    }
  }

  /** The states that the step relation leaves out do not occur: whoever returns to `send` is counted
      and has a PDU, both buffers are well formed, and a header read in full is the length of a PDU. */
  lemma StepsAreDefined(ss: seq<Link>, es: seq<Event>, n: nat)
    requires Run(ss, es) && n <= |es|
    ensures var l := ss[n];
      && WbufOk(l.tx.w) && l.rd <= |l.wire|
      && (forall c | c in l.calls && l.calls[c].Queued? :: IsPdu(l.calls[c].b) && l.tx.waiters > 0)
      && (!l.rx.dead ==> (l.rx.r.sz == 0 <==> l.rx.r.buf.None?))
      && (!l.rx.dead && l.rx.r.sz == 0 && l.rd + HEADER_SZ <= |l.wire| ==>
            RPC_HEADER_SZ <= HeaderSize(l.wire[l.rd..][..HEADER_SZ]))
  {
    RunInv(ss, es, n);
    hide Run, Flat, HeaderSize, Sleepers;
    var l := ss[n];
    forall c | c in l.calls && l.calls[c].Queued? ensures IsPdu(l.calls[c].b) && l.tx.waiters > 0 {
      assert CallOk(l, c);
      QueuedAreSleepers(l.calls, c);
    }
    if !l.rx.dead && l.rx.r.sz == 0 && l.rd + HEADER_SZ <= |l.wire| {
      NextHeader(l);
    }
  }

  lemma NextHeader(l: Link)
    requires WireInv(l.sent, l.cut, l.wire) && ReadInv(l.sent, l.wire, l.rx, l.rd, l.accepted)
    requires !l.rx.dead && l.rx.r.sz == 0 && l.rd + HEADER_SZ <= |l.wire|
    ensures RPC_HEADER_SZ <= HeaderSize(l.wire[l.rd..][..HEADER_SZ])
  {
    hide Flat, HeaderSize;
    var m := |l.accepted|;
    if m == |l.sent| {
      NothingUnread(l.sent, l.cut, l.wire);
    }
    var d := l.sent[m].data;
    NextBytes(l.sent, l.cut, l.wire, m, 0, HEADER_SZ);
    HeaderIsLength(d, l.wire[l.rd..][..HEADER_SZ]);
  }

  /** What a refusal leaves behind: nothing handed over, the whole PDU kept, and the next callback
      offers the same PDU again without reading. */
  lemma RefusedIsKept(l: Link, hdr: ReadOut, body: ReadOut, takes: bool)
    requires Inv(l) && !l.rx.dead && !NeedsBytes(l.rx.r) && Enabled(l, Readable(hdr, body, takes))
    ensures var l1 := Step(l, Readable(hdr, body, takes)); var m := |l.accepted|;
      && l1.rd == l.rd && m < |l.sent|
      && if takes then l1.accepted == l.accepted + [l.sent[m].data] && l1.rx.r == NO_READ
         else l1.accepted == l.accepted && l1.rx == l.rx
  {
    hide WireInv, BufInv, CallInv, Flat;
    assert l.rx.r.buf.value == l.sent[|l.accepted|].data;
  }

  /** `send` returns true only when its PDU is entirely on the wire, at its own place. */
  lemma TrueMeansWritten(ss: seq<Link>, es: seq<Event>, n: nat, c: nat)
    requires Run(ss, es) && n <= |es|
    requires c in ss[n].calls && ss[n].calls[c].Finished? && ss[n].calls[c].ok
    ensures var l := ss[n]; var i := l.calls[c].frame;
      && i.Some? && i.value < |l.sent| && l.sent[i.value].call == c
      && Flat(Datas(l.sent)[..i.value + 1]) <= l.wire
      && Flat(Datas(l.sent)[..i.value + 1]) == Flat(Datas(l.sent)[..i.value]) + l.sent[i.value].data
  {
    RunInv(ss, es, n);
    hide Run, Flat, ReadInv, BufInv;
    var l := ss[n];
    assert CallOk(l, c);
    var i := l.calls[c].frame.value;
    OnlyLastIsCut(l, i);
  }

  lemma OnlyLastIsCut(l: Link, i: nat)
    requires WireInv(l.sent, l.cut, l.wire) && i < |l.sent|
    requires i + 1 == |l.sent| ==> l.cut == |l.sent[i].data|
    ensures Flat(Datas(l.sent)[..i + 1]) <= l.wire
    ensures Flat(Datas(l.sent)[..i + 1]) == Flat(Datas(l.sent)[..i]) + l.sent[i].data
  {
    hide Flat, IsFrame;
    var ds := Datas(l.sent);
    FlatAt(ds, i);
    FlatPrefix(ds, i + 1);
    if i + 1 < |ds| {
      FlatAt(ds, |ds| - 1);
      FlatPrefix(ds[..|ds| - 1], i + 1);
      assert ds[..|ds| - 1][..i + 1] == ds[..i + 1];
      assert ds[..|ds|] == ds;
    }
  }

  /** A call begins at most one frame, and a call that returns false leaves a dead connection. */
  lemma OneFramePerCall(ss: seq<Link>, es: seq<Event>, n: nat)
    requires Run(ss, es) && n <= |es|
    ensures var l := ss[n];
      && (forall i, j | 0 <= i < |l.sent| && 0 <= j < |l.sent| && l.sent[i].call == l.sent[j].call :: i == j)
      && (forall c | c in l.calls && l.calls[c].Finished? && !l.calls[c].ok :: l.tx.dead)
  {
    RunInv(ss, es, n);
    hide Run, WireInv, ReadInv, BufInv;
    var l := ss[n];
    forall i, j | 0 <= i < |l.sent| && 0 <= j < |l.sent| && l.sent[i].call == l.sent[j].call ensures i == j {
      assert SentBy(l, i) && SentBy(l, j);
    }
    forall c | c in l.calls && l.calls[c].Finished? && !l.calls[c].ok ensures l.tx.dead {
      assert CallOk(l, c);
    }
  }

  /** One step of a dead sender: nothing more reaches the wire and no frame begins. */
  lemma DeadStep(l: Link, e: Event)
    requires l.tx.dead && Enabled(l, e)
    ensures var l1 := Step(l, e); l1.tx.dead && l1.wire == l.wire && l1.sent == l.sent && l1.cut == l.cut
  {
    hide Frame, ReadCb, ReadPdu;
  }

  lemma {:induction false} DeadFreezesWire(ss: seq<Link>, es: seq<Event>, i: nat, j: nat)
    requires Run(ss, es) && i <= j <= |es| && ss[i].tx.dead
    ensures ss[j].tx.dead && ss[j].wire == ss[i].wire && ss[j].sent == ss[i].sent && ss[j].cut == ss[i].cut
  {
    hide Step, Enabled;
    if i < j {
      DeadFreezesWire(ss, es, i, j - 1);
      DeadStep(ss[j - 1], es[j - 1]);
      assert ss[j] == Step(ss[j - 1], es[j - 1]);
    }
  }

  /** Nothing follows a half-written PDU: once its sender has returned without completing it, no byte
      reaches the wire any more. */
  lemma NothingFollowsHalfPdu(ss: seq<Link>, es: seq<Event>, i: nat, j: nat, c: nat)
    requires Run(ss, es) && i <= j <= |es| && ss[i].sent != []
    requires var s := ss[i].sent[|ss[i].sent| - 1];
      s.call == c && ss[i].cut < |s.data| && c in ss[i].calls && ss[i].calls[c].Finished?
    ensures ss[j].wire == ss[i].wire && ss[j].sent == ss[i].sent
  {
    RunInv(ss, es, i);
    var l := ss[i];
    assert CallOk(l, c) && SentBy(l, |l.sent| - 1);
    hide Inv, Step, Enabled;
    DeadFreezesWire(ss, es, i, j);
  }

  /** No lost wakeup. Whoever sleeps on `send_wait_` waits for a call that owns the write buffer; and
      the owner sleeps only while it has bytes to write on a live connection, unless `closeconn` was
      called, which wakes nobody. */
  lemma NobodyOversleeps(ss: seq<Link>, es: seq<Event>, n: nat, c: nat)
    requires Run(ss, es) && n <= |es| && c in ss[n].calls
    ensures var l := ss[n];
      && (l.calls[c].Queued? && !l.calls[c].awake ==>
          l.sent != [] && IsOwner(l.calls, l.sent[|l.sent| - 1].call))
      && (l.calls[c].Owner? && !l.calls[c].awake ==>
          l.sent != [] && (l.closed || (!l.tx.dead && l.cut < |l.sent[|l.sent| - 1].data|)))
  {
    RunInv(ss, es, n);
    hide Run, WireInv, ReadInv;
    assert CallOk(ss[n], c);
  }

  /** An owner asleep at a dead connection was left there by `closeconn`; and once left, no step but a
      spurious wakeup of its own gets it out. */
  lemma StrandedOwner(ss: seq<Link>, es: seq<Event>, n: nat, c: nat)
    requires Run(ss, es) && n < |es| && IsOwner(ss[n].calls, c) && !ss[n].calls[c].awake
    ensures ss[n].tx.dead <==> ss[n].closed
    ensures ss[n].closed && es[n] != Resume(c) ==>
      ss[n + 1].closed && IsOwner(ss[n + 1].calls, c) && !ss[n + 1].calls[c].awake
  {
    RunInv(ss, es, n);
    var l, e := ss[n], es[n];
    assert Enabled(l, e) && ss[n + 1] == Step(l, e);
    hide Run, WireInv, ReadInv, Frame, ReadCb, ReadPdu, WriteCb, WritePdu;
    assert CallOk(l, c);
    assert e.Resume? ==> CallOk(l, e.c);
  }

  predicate Stranded(l: Link, c: nat) {
    l.tx.dead && IsOwner(l.calls, c) && !l.calls[c].awake
  }

  /** A run in which that happens: half a PDU goes out, the sender waits, and `closeconn` comes. */
  lemma CloseStrandsSender(b: Bytes)
    requires IsPdu(b)
    ensures exists ss: seq<Link>, es: seq<Event> :: Run(ss, es) && Stranded(ss[|es|], 0)
  {
    hide Frame, ReadCb, ReadPdu;
    var e0, e1 := Send(0, b, WouldBlock), Close;
    var s1 := Step(START, e0);
    var s2 := Step(s1, e1);
    var ss, es := [START, s1, s2], [e0, e1];
    assert Run(ss, es);
    assert Stranded(ss[|es|], 0);
  }

  predicate AsleepInQueue(l: Link, c: nat) {
    c in l.calls && l.calls[c].Queued? && !l.calls[c].awake
  }

  /** The other place where `send` waits. A thread asleep on `send_wait_` at a dead connection has an
      owner to wait for. Either that owner is on its way out, and its next step wakes the thread; or it
      sleeps itself, which happens only after `closeconn`. */
  lemma StrandedQueue(ss: seq<Link>, es: seq<Event>, n: nat, c: nat)
    requires Run(ss, es) && n <= |es| && AsleepInQueue(ss[n], c) && ss[n].tx.dead
    ensures var l := ss[n];
      && l.sent != []
      && var o := l.sent[|l.sent| - 1].call;
      && IsOwner(l.calls, o)
      && (if l.calls[o].awake
          then Enabled(l, Resume(o)) && c in Step(l, Resume(o)).calls && !AsleepInQueue(Step(l, Resume(o)), c)
          else l.closed)
  {
    RunInv(ss, es, n);
    var l := ss[n];
    hide Run, WireInv, ReadInv, Frame, ReadCb, ReadPdu, WriteCb, WritePdu;
    assert CallOk(l, c);
    var o := l.sent[|l.sent| - 1].call;
    assert CallOk(l, o);
    QueuedAreSleepers(l.calls, c);
  }

  /** In the second case nothing but a spurious wakeup of one of the two gets either of them out. */
  lemma StrandedQueueStays(ss: seq<Link>, es: seq<Event>, n: nat, c: nat, o: nat)
    requires Run(ss, es) && n < |es| && ss[n].closed && AsleepInQueue(ss[n], c)
    requires IsOwner(ss[n].calls, o) && !ss[n].calls[o].awake
    requires es[n] != Resume(o) && (es[n].Retry? ==> es[n].c != c)
    ensures ss[n + 1].closed && AsleepInQueue(ss[n + 1], c)
    ensures IsOwner(ss[n + 1].calls, o) && !ss[n + 1].calls[o].awake
  {
    RunInv(ss, es, n);
    var l, e := ss[n], es[n];
    assert Enabled(l, e) && ss[n + 1] == Step(l, e);
    hide Run, WireInv, ReadInv, Frame, ReadCb, ReadPdu, WriteCb, WritePdu;
    forall d | IsOwner(l.calls, d) ensures d == o {
      assert CallOk(l, d) && CallOk(l, o);
    }
  }

  /** A run in which `closeconn` leaves a thread in each place. */
  lemma CloseStrandsQueue(b: Bytes)
    requires IsPdu(b)
    ensures exists ss: seq<Link>, es: seq<Event> ::
      Run(ss, es) && Stranded(ss[|es|], 0) && AsleepInQueue(ss[|es|], 1)
  {
    hide Frame, ReadCb, ReadPdu;
    var es := [Send(0, b, WouldBlock), Send(1, b, WouldBlock), Close];
    var s1 := Step(START, es[0]);
    var s2 := Step(s1, es[1]);
    var s3 := Step(s2, es[2]);
    var ss := [START, s1, s2, s3];
    assert Run(ss, es);
    assert Stranded(ss[|es|], 0) && AsleepInQueue(ss[|es|], 1);
  }
}
