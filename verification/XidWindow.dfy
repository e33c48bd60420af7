/** The client's record of finished calls (`xid_rep_window_`, rpc/rpc.cc:359-382): a sorted list
    of xids, repeats allowed, whose front is the watermark that every request header carries. */
module XidWindow {

  ghost predicate Nondecreasing(w: seq<nat>) {
    forall i, j | 0 <= i < j < |w| :: w[i] <= w[j]
  }

  /** `w` is a faithful summary of the set `seen` of reported xids: its front is the largest n with
      1..n all reported, and above the front it lists exactly the reported xids. */
  ghost predicate Represents(w: seq<nat>, seen: set<nat>) {
    && |w| > 0
    && Nondecreasing(w)
    && (forall n | 1 <= n <= w[0] :: n in seen)
    && w[0] + 1 !in seen
    && (forall n | n > w[0] :: n in w <==> n in seen)
  }

  /** Insert before the first greater element, or at the end. */
  function Insert(w: seq<nat>, x: nat): (r: seq<nat>)
    ensures |r| == |w| + 1
  {
    if w == [] then [x]
    else if w[0] > x then [x] + w
    else [w[0]] + Insert(w[1..], x)
  }

  /** Drop the front for as long as its successor is listed. */
  function Compress(w: seq<nat>): (r: seq<nat>)
    requires |w| > 0
    ensures |r| > 0
  {
    if w[0] + 1 in w then Compress(w[1..]) else w
  }

  function Report(w: seq<nat>, x: nat): (r: seq<nat>)
    requires |w| > 0
    ensures |r| > 0
  {
    if x <= w[0] then w else Compress(Insert(w, x))
  }

  function ReportAll(w: seq<nat>, xs: seq<nat>): (r: seq<nat>)
    requires |w| > 0
    ensures |r| > 0
  {
    if xs == [] then w else Report(ReportAll(w, xs[..|xs| - 1]), xs[|xs| - 1])
  }

  function Elements(xs: seq<nat>): set<nat> {
    set x | x in xs
  }

  lemma {:induction false} InsertKeepsOrder(w: seq<nat>, x: nat)
    requires Nondecreasing(w)
    ensures Nondecreasing(Insert(w, x))
    ensures forall n :: n in Insert(w, x) <==> n == x || n in w
    ensures w != [] ==> Insert(w, x)[0] == if w[0] > x then x else w[0]
  {
    if w != [] && w[0] <= x {
      InsertKeepsOrder(w[1..], x);
      var r := Insert(w[1..], x);
      assert w == [w[0]] + w[1..];
      assert forall n | n in r :: w[0] <= n;
    }
  }

  /** Inserting at the position the scan stopped at is the recursive insertion. */
  lemma {:induction false} InsertAt(w: seq<nat>, x: nat, i: nat)
    requires i <= |w|
    requires forall j | 0 <= j < i :: w[j] <= x
    requires i < |w| ==> w[i] > x
    ensures Insert(w, x) == w[..i] + [x] + w[i..]
  {
    if i > 0 {
      InsertAt(w[1..], x, i - 1);
      assert w[1..][..i - 1] == w[1..i];
      assert w == [w[0]] + w[1..];
    }
  }

  /** Everything `Represents` says except that the front is maximal. */
  ghost predicate Lists(w: seq<nat>, seen: set<nat>) {
    && |w| > 0
    && Nondecreasing(w)
    && (forall n | 1 <= n <= w[0] :: n in seen)
    && (forall n | n > w[0] :: n in w <==> n in seen)
  }

  lemma DropFront(w: seq<nat>, seen: set<nat>)
    requires Lists(w, seen) && w[0] + 1 in w
    ensures |w| > 1 && Lists(w[1..], seen)
  {
    var t := w[1..];
    assert w == [w[0]] + t;
    assert w[0] + 1 in t;
    assert t[0] <= w[0] + 1;
    assert forall n | n > t[0] :: n in t <==> n in w;
  }

  ghost predicate NoSuccessorBefore(w: seq<nat>, it: nat) {
    forall j | 0 <= j < it && j < |w| :: w[j] != w[0] + 1
  }

  /** One pop of the compress loop: the front differs from the element pointed at. */
  lemma PopFront(w: seq<nat>, it: nat)
    requires it < |w| && Nondecreasing(w) && NoSuccessorBefore(w, it)
    requires w[0] + 1 == w[it]
    ensures it > 0
    ensures Nondecreasing(w[1..]) && NoSuccessorBefore(w[1..], it - 1)
    ensures Compress(w) == Compress(w[1..])
  {
    var t := w[1..];
    assert forall j | 0 <= j < |t| :: t[j] == w[j + 1];
    forall j | 0 <= j < it - 1 ensures t[j] != t[0] + 1 {
      assert t[j] <= w[it];
    }
  }

  lemma {:induction false} CompressRepresents(w: seq<nat>, seen: set<nat>)
    requires Lists(w, seen)
    ensures Represents(Compress(w), seen)
  {
    if w[0] + 1 in w {
      DropFront(w, seen);
      CompressRepresents(w[1..], seen);
    }
  }

  /** One report adds one xid to the represented set, whatever was reported before. */
  lemma ReportRepresents(w: seq<nat>, seen: set<nat>, x: nat)
    requires Represents(w, seen)
    ensures Represents(Report(w, x), seen + {x})
  {
    if x > w[0] {
      InsertKeepsOrder(w, x);
      CompressRepresents(Insert(w, x), seen + {x});
    }
  }

  /** After any sequence of reports, with repeats and in any order, the list started as [0]
      represents exactly the set of reported xids. */
  lemma {:induction false} ReportAllRepresents(xs: seq<nat>)
    ensures Represents(ReportAll([0], xs), Elements(xs))
  {
    if xs != [] {
      var init, last := xs[..|xs| - 1], xs[|xs| - 1];
      ReportAllRepresents(init);
      assert xs == init + [last];
      assert Elements(xs) == Elements(init) + {last};
      ReportRepresents(ReportAll([0], init), Elements(init), last);
    }
  }

  /** The watermark is determined by the set of reported xids alone: repeats, order and the
      elements kept in the list have no influence on it, and it only grows with the set. */
  lemma WatermarkMonotone(v: seq<nat>, seenV: set<nat>, w: seq<nat>, seenW: set<nat>)
    requires Represents(v, seenV) && Represents(w, seenW)
    requires seenV <= seenW
    ensures v[0] <= w[0]
    ensures seenV == seenW ==> v[0] == w[0]
  {
  }
}
