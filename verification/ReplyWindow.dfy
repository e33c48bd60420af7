/** The server half's memory: one window of remembered requests per client (`reply_window_`,
    rpc/rpc.h:260-285, rpc/rpc.cc:612-703). Functions say what a window becomes; class `Rpcs` edits
    the lists in place and logs every buffer it hands to `free`. */
module ReplyWindow {
  import opened RpcTypes

  /** A malloc'ed reply, named by the execution that allocated it. */
  datatype Buffer = Buffer(id: nat, rep: Rep)

  /** `reply_t`: `cb_present` and `buf` are one option. */
  datatype Entry = Entry(xid: nat, reply: Option<Buffer>)

  datatype Verdict = New | InProgress | Done(buf: Buffer) | Forgotten

  datatype CheckResult = CheckResult(verdict: Verdict, window: seq<Entry>)

  ghost predicate Sorted(w: seq<Entry>) {
    forall i, j | 0 <= i < j < |w| :: w[i].xid < w[j].xid
  }

  ghost predicate Listed(w: seq<Entry>, xid: nat) {
    exists i | 0 <= i < |w| :: w[i].xid == xid
  }

  function Trim(w: seq<Entry>, xidRep: nat): seq<Entry> {
    if w != [] && w[0].xid < xidRep then Trim(w[1..], xidRep) else w
  }

  /** The buffer an entry passes to `free`; freeing NULL does nothing. */
  function BufOf(e: Entry): (r: seq<nat>) {
    if e.reply.Some? then [e.reply.value.id] else []
  }

  function BufsOf(w: seq<Entry>): seq<nat> {
    if w == [] then [] else BufOf(w[0]) + BufsOf(w[1..])
  }

  /** The buffers freed by a trim, in list order. */
  function TrimmedBufs(w: seq<Entry>, xidRep: nat): seq<nat> {
    if w != [] && w[0].xid < xidRep then BufOf(w[0]) + TrimmedBufs(w[1..], xidRep) else []
  }

  /** The first entry for `xid`. */
  function Lookup(w: seq<Entry>, xid: nat): (r: Option<Entry>)
    ensures r.None? <==> !Listed(w, xid)
    ensures r.Some? ==> r.value in w && r.value.xid == xid
  {
    if w == [] then None
    else if w[0].xid == xid then Some(w[0])
    else
      assert Listed(w, xid) ==> Listed(w[1..], xid) by {
        if Listed(w, xid) {
          var i :| 0 <= i < |w| && w[i].xid == xid;
          assert w[1..][i - 1].xid == xid;
        }
      }
      Lookup(w[1..], xid)
  }

  function InsertNew(w: seq<Entry>, xid: nat): seq<Entry> {
    if w == [] then [Entry(xid, None)]
    else if w[0].xid > xid then [Entry(xid, None)] + w
    else [w[0]] + InsertNew(w[1..], xid)
  }

  /** What the trimmed window says about `xid`; `None` means the request is new. */
  function Search(kept: seq<Entry>, xid: nat): Option<Verdict> {
    match Lookup(kept, xid)
    case Some(e) => Some(if e.reply.Some? then Done(e.reply.value) else InProgress)
    case None => if kept != [] && kept[0].xid > xid then Some(Forgotten) else None
  }

  /** Trim first, then decide on what is left: the order of the guide, which tests the front of the
      window only after the search has failed. */
  function Check(w: seq<Entry>, xid: nat, xidRep: nat): CheckResult {
    var kept := Trim(w, xidRep);
    match Search(kept, xid)
    case Some(verdict) => CheckResult(verdict, kept)
    case None => CheckResult(New, InsertNew(kept, xid))
  }

  function AddReply(w: seq<Entry>, xid: nat, buf: Buffer): (r: seq<Entry>)
    ensures |r| == |w|
  {
    if w == [] then []
    else if w[0].xid == xid then [Entry(xid, Some(buf))] + w[1..]
    else [w[0]] + AddReply(w[1..], xid, buf)
  }

  lemma {:induction false} TrimKeeps(w: seq<Entry>, xidRep: nat)
    requires Sorted(w)
    ensures Sorted(Trim(w, xidRep))
    ensures forall e :: e in Trim(w, xidRep) <==> e in w && e.xid >= xidRep
    ensures forall b :: b in TrimmedBufs(w, xidRep) <==> exists e :: e in w && e.xid < xidRep && b in BufOf(e)
    ensures Trim(w, xidRep) != [] && w != [] ==> w[0].xid <= Trim(w, xidRep)[0].xid
  {
    if w != [] && w[0].xid < xidRep {
      assert w == [w[0]] + w[1..];
      TrimKeeps(w[1..], xidRep);
      if |w| > 1 { assert w[0].xid < w[1..][0].xid; }
    }
  }

  lemma {:induction false} InsertKeeps(w: seq<Entry>, xid: nat)
    requires Sorted(w) && !Listed(w, xid)
    ensures Sorted(InsertNew(w, xid))
    ensures forall e :: e in InsertNew(w, xid) <==> e in w || e == Entry(xid, None)
    ensures InsertNew(w, xid) != []
    ensures InsertNew(w, xid)[0].xid == if w != [] && w[0].xid < xid then w[0].xid else xid
  {
    if w != [] && w[0].xid < xid {
      assert w == [w[0]] + w[1..];
      assert forall i | 0 <= i < |w[1..]| :: w[1..][i] == w[i + 1];
      InsertKeeps(w[1..], xid);
      var r := InsertNew(w[1..], xid);
      assert forall e | e in r :: w[0].xid < e.xid;
    } else if w != [] {
      assert w[0].xid != xid;
    }
  }

  lemma {:induction false} InsertAt(w: seq<Entry>, xid: nat, i: nat)
    requires i <= |w|
    requires forall j | 0 <= j < i :: w[j].xid <= xid
    requires i < |w| ==> w[i].xid > xid
    ensures InsertNew(w, xid) == w[..i] + [Entry(xid, None)] + w[i..]
  {
    if i > 0 {
      InsertAt(w[1..], xid, i - 1);
      assert w[1..][..i - 1] == w[1..i];
      assert w == [w[0]] + w[1..];
    }
  }

  lemma {:induction false} AddReplyAt(w: seq<Entry>, xid: nat, buf: Buffer, i: nat)
    requires i <= |w|
    requires forall j | 0 <= j < i :: w[j].xid != xid
    requires i < |w| ==> w[i].xid == xid
    ensures AddReply(w, xid, buf) == if i < |w| then w[i := Entry(xid, Some(buf))] else w
  {
    if i > 0 {
      AddReplyAt(w[1..], xid, buf, i - 1);
      assert w == [w[0]] + w[1..];
    } else if w != [] {
      assert w[0 := Entry(xid, Some(buf))] == [Entry(xid, Some(buf))] + w[1..];
    }
  }

  /** `add_reply` fills the entry of its xid and changes nothing else. */
  lemma {:induction false} AddReplyKeeps(w: seq<Entry>, xid: nat, buf: Buffer)
    requires Sorted(w)
    ensures Sorted(AddReply(w, xid, buf))
    ensures forall i | 0 <= i < |w| ::
      AddReply(w, xid, buf)[i] == if w[i].xid == xid then Entry(xid, Some(buf)) else w[i]
  {
    if w != [] && w[0].xid != xid {
      AddReplyKeeps(w[1..], xid, buf);
      var t := w[1..];
      forall i | 0 <= i < |w|
        ensures AddReply(w, xid, buf)[i] == if w[i].xid == xid then Entry(xid, Some(buf)) else w[i]
      {
        if i > 0 { assert t[i - 1] == w[i]; }
      }
    }
  }

  lemma ListedIn(w: seq<Entry>, xid: nat)
    ensures Listed(w, xid) <==> exists e :: e in w && e.xid == xid
  {
    if e :| e in w && e.xid == xid {
      var i :| 0 <= i < |w| && w[i] == e;
    }
  }

  /** The whole contract of `checkduplicate_and_update` on a sorted window. */
  lemma CheckMeetsSpec(w: seq<Entry>, xid: nat, xidRep: nat)
    requires Sorted(w)
    ensures var c := Check(w, xid, xidRep); var kept := Trim(w, xidRep);
      && Sorted(c.window) && c.window != []
      && (c.verdict.New? <==> !Listed(kept, xid) && (kept == [] || kept[0].xid < xid))
      && (c.verdict.Forgotten? <==> !Listed(kept, xid) && kept != [] && kept[0].xid > xid)
      && (c.verdict.InProgress? <==> Entry(xid, None) in kept)
      && (forall b :: c.verdict == Done(b) <==> Entry(xid, Some(b)) in kept)
      && (forall e :: e in c.window <==> e in kept || (c.verdict.New? && e == Entry(xid, None)))
  {
    TrimKeeps(w, xidRep);
    var kept := Trim(w, xidRep);
    ListedIn(kept, xid);
    if !Listed(kept, xid) { InsertKeeps(kept, xid); }
    forall e, f | e in kept && f in kept && e.xid == f.xid ensures e == f {
      SameXidSameEntry(kept, e, f);
    }
  }

  lemma SameXidSameEntry(w: seq<Entry>, e: Entry, f: Entry)
    requires Sorted(w) && e in w && f in w && e.xid == f.xid
    ensures e == f
  {
    var i :| 0 <= i < |w| && w[i] == e;
    var j :| 0 <= j < |w| && w[j] == f;
  }

  /** For requests that satisfy `xid_rep < xid` the front of a used window never decreases, and
      everything a call trims or refuses lies below the new front. */
  lemma FrontNeverDecreases(w: seq<Entry>, xid: nat, xidRep: nat)
    requires Sorted(w) && xidRep < xid
    ensures var c := Check(w, xid, xidRep);
      && c.window != []
      && (w != [] ==> w[0].xid <= c.window[0].xid)
      && (forall e | e in w && e !in c.window :: e.xid < c.window[0].xid && e.xid < xidRep)
      && (c.verdict.Forgotten? ==> xid < c.window[0].xid)
      && (c.verdict.New? && w != [] ==> w[0].xid < xid)
  {
    TrimKeeps(w, xidRep);
    CheckMeetsSpec(w, xid, xidRep);
    var kept := Trim(w, xidRep);
    var c := Check(w, xid, xidRep);
    if c.verdict.New? { InsertKeeps(kept, xid); }
    assert c.window[0] in c.window;
    if w != [] { assert w[0] in w; }
    if kept != [] { assert kept[0] in kept; }
  }

  /** A request the window does not list is refused exactly when the window keeps entries at or
      above the watermark and all of them are newer than the request. */
  lemma FreshRefusedIff(w: seq<Entry>, xid: nat, xidRep: nat)
    requires Sorted(w) && !Listed(w, xid)
    ensures Check(w, xid, xidRep).verdict.Forgotten? <==>
      && (exists e :: e in w && e.xid >= xidRep)
      && (forall e | e in w && e.xid >= xidRep :: e.xid > xid)
  {
    TrimKeeps(w, xidRep);
    CheckMeetsSpec(w, xid, xidRep);
    var kept := Trim(w, xidRep);
    ListedIn(w, xid);
    ListedIn(kept, xid);
    if kept != [] {
      assert kept[0] in kept;
      forall e | e in kept ensures kept[0].xid <= e.xid {
        var i :| 0 <= i < |kept| && kept[i] == e;
      }
    }
  }

  /** The buffers of the windows listed in `order`, one window after the other. */
  function FreeInOrder(ws: map<nat, seq<Entry>>, order: seq<nat>): seq<nat>
    requires forall c | c in order :: c in ws
  {
    if order == [] then []
    else FreeInOrder(ws, order[..|order| - 1]) + BufsOf(ws[order[|order| - 1]])
  }

  lemma {:induction false} BufsOfAppend(w: seq<Entry>, i: nat)
    requires i < |w|
    ensures BufsOf(w[..i + 1]) == BufsOf(w[..i]) + BufOf(w[i])
  {
    if i > 0 {
      BufsOfAppend(w[1..], i - 1);
      assert w[..i + 1][1..] == w[1..][..i];
      assert w[..i][1..] == w[1..][..i - 1];
    } else {
      assert w[..1][1..] == [];
      assert w[..0] == [];
    }
  }

  class Rpcs {
    var replyWindow: map<nat, seq<Entry>>
    var freed: seq<nat>

    /** `reply_window_[clt]`, which is empty until it is first used. */
    function Window(clt: nat): seq<Entry>
      reads this
    {
      if clt in replyWindow then replyWindow[clt] else []
    }

    constructor ()
      ensures replyWindow == map[] && freed == []
    {
      replyWindow, freed := map[], [];
    }

    /** The single pass of the source: trim, search and the FORGOTTEN test in one loop, then insert. */
    method CheckDuplicateAndUpdate(clt: nat, xid: nat, xidRep: nat) returns (stat: Verdict)
      requires Sorted(Window(clt))
      modifies this
      ensures var c := Check(old(Window(clt)), xid, xidRep);
        stat == c.verdict && replyWindow == old(replyWindow)[clt := c.window]
      ensures freed == old(freed) + TrimmedBufs(old(Window(clt)), xidRep)
    {
      hide Trim, TrimmedBufs, Search, InsertNew, Sorted;
      var answer := TrimAndSearch(clt, xid, xidRep);
      if answer.Some? {
        return answer.value;
      }
      InsertEntry(clt, xid);
      stat := New;
    }

    /** The scan that puts a new request before the first later one, or at the end. */
    method InsertEntry(clt: nat, xid: nat)
      requires clt in replyWindow
      modifies this`replyWindow
      ensures replyWindow == old(replyWindow)[clt := InsertNew(old(replyWindow)[clt], xid)]
    {
      var w := replyWindow[clt];
      var it := 0;
      while it < |w| && w[it].xid <= xid
        invariant it <= |w|
        invariant forall j | 0 <= j < it :: w[j].xid <= xid
      {
        it := it + 1;
      }
      InsertAt(w, xid, it);
      replyWindow := replyWindow[clt := w[..it] + [Entry(xid, None)] + w[it..]];
    }

    method TrimAndSearch(clt: nat, xid: nat, xidRep: nat) returns (answer: Option<Verdict>)
      requires Sorted(Window(clt))
      modifies this
      ensures var kept := Trim(old(Window(clt)), xidRep);
        && replyWindow == old(replyWindow)[clt := kept]
        && answer == Search(kept, xid)
      ensures freed == old(freed) + TrimmedBufs(old(Window(clt)), xidRep)
    {
      var w;
      w, answer := ScanList(Window(clt), xid, xidRep);
      replyWindow := replyWindow[clt := w];
    }

    /** The loop over one client's list; it erases only at the front and stops early. */
    method ScanList(w0: seq<Entry>, xid: nat, xidRep: nat) returns (w: seq<Entry>, answer: Option<Verdict>)
      requires Sorted(w0)
      modifies this`freed
      ensures w == Trim(w0, xidRep) && answer == Search(w, xid)
      ensures freed == old(freed) + TrimmedBufs(w0, xidRep)
    {
      w := w0;
      var it := 0;
      while it < |w|
        invariant it <= |w| && Sorted(w)
        invariant Trim(w, xidRep) == Trim(w0, xidRep)
        invariant it > 0 ==> w[0].xid >= xidRep && w[0].xid < xid
        invariant freed + TrimmedBufs(w, xidRep) == old(freed) + TrimmedBufs(w0, xidRep)
        invariant forall j | 0 <= j < it :: w[j].xid != xid
        decreases |w| - it
      {
        if w[it].xid < xidRep {
          EraseFront(w, xidRep, it, freed);
          freed := freed + BufOf(w[it]);
          w := w[..it] + w[it + 1..];
          continue;
        }
        NothingToTrim(w, xidRep);
        if w[it].xid == xid {
          LookupAt(w, xid, it);
          answer := Some(if w[it].reply.Some? then Done(w[it].reply.value) else InProgress);
          return;
        }
        if w[0].xid > xid {
          answer := Some(Forgotten);
          return;
        }
        it := it + 1;
      }
      NothingToTrim(w, xidRep);
      answer := None;
    }

    method StoreReply(clt: nat, xid: nat, buf: Buffer)
      modifies this`replyWindow
      ensures replyWindow == old(replyWindow)[clt := AddReply(old(Window(clt)), xid, buf)]
    {
      var w := Window(clt);
      var it := 0;
      while it < |w| && w[it].xid != xid
        invariant it <= |w|
        invariant forall j | 0 <= j < it :: w[j].xid != xid
      {
        it := it + 1;
      }
      AddReplyAt(w, xid, buf, it);
      if it < |w| {
        w := w[it := Entry(xid, Some(buf))];
      }
      replyWindow := replyWindow[clt := w];
    }

    method FreeList(w: seq<Entry>)
      modifies this`freed
      ensures freed == old(freed) + BufsOf(w)
    {
      var it := 0;
      while it < |w|
        invariant it <= |w|
        invariant freed == old(freed) + BufsOf(w[..it])
      {
        BufsOfAppend(w, it);
        freed := freed + BufOf(w[it]);
        it := it + 1;
      }
      assert w[..it] == w;
    }

    /** Frees every buffer of every window, and forgets the windows. */
    method FreeReplyWindow() returns (ghost order: seq<nat>)
      modifies this
      ensures replyWindow == map[]
      ensures forall c :: c in order <==> c in old(replyWindow)
      ensures forall i, j | 0 <= i < j < |order| :: order[i] != order[j]
      ensures freed == old(freed) + FreeInOrder(old(replyWindow), order)
    {
      order := [];
      var todo := replyWindow.Keys;
      while todo != {}
        invariant replyWindow == old(replyWindow)
        invariant todo <= replyWindow.Keys
        invariant forall c :: c in order <==> c in replyWindow && c !in todo
        invariant forall i, j | 0 <= i < j < |order| :: order[i] != order[j]
        invariant freed == old(freed) + FreeInOrder(replyWindow, order)
        decreases |todo|
      {
        var clt :| clt in todo;
        FreeList(replyWindow[clt]);
        FreeInOrderAppend(replyWindow, order, clt);
        order := order + [clt];
        todo := todo - {clt};
      }
      replyWindow := map[];
    }
  }

  /** The pass erases only at the front of the list: one step of the trim. */
  lemma EraseFront(w: seq<Entry>, xidRep: nat, it: nat, freed: seq<nat>)
    requires it < |w| && Sorted(w) && w[it].xid < xidRep
    requires it > 0 ==> w[0].xid >= xidRep
    ensures it == 0 && w[..it] + w[it + 1..] == w[1..]
    ensures Sorted(w[1..]) && Trim(w[1..], xidRep) == Trim(w, xidRep)
    ensures freed + BufOf(w[it]) + TrimmedBufs(w[1..], xidRep) == freed + TrimmedBufs(w, xidRep)
  {
    var rest := TrimmedBufs(w[1..], xidRep);
    assert freed + BufOf(w[0]) + rest == freed + (BufOf(w[0]) + rest);
  }

  lemma NothingToTrim(w: seq<Entry>, xidRep: nat)
    requires w != [] ==> w[0].xid >= xidRep
    ensures Trim(w, xidRep) == w && TrimmedBufs(w, xidRep) == []
  {
  }

  lemma FreeInOrderAppend(ws: map<nat, seq<Entry>>, order: seq<nat>, clt: nat)
    requires clt in ws && forall c | c in order :: c in ws
    ensures FreeInOrder(ws, order + [clt]) == FreeInOrder(ws, order) + BufsOf(ws[clt])
  {
    assert (order + [clt])[..|order|] == order;
  }

  lemma {:induction false} LookupAt(w: seq<Entry>, xid: nat, it: nat)
    requires it < |w| && w[it].xid == xid && Sorted(w)
    ensures Lookup(w, xid) == Some(w[it])
  {
    SameXidSameEntry(w, Lookup(w, xid).value, w[it]);
  }
}
