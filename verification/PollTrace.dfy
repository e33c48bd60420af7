/** The poll thread's machine read off its events: which descriptors are watched for what, which
    callback is stored, and which callbacks are called, in which order. */
module PollTrace {
  import opened SelectAio
  import opened PollMgr

  // ---- What is watched ----

  predicate Asks(flag: PollFlag, wr: bool) {
    if wr then AsksWrite(flag) else AsksRead(flag)
  }

  predicate IsWatched(a: Aio, fd: nat, wr: bool) {
    if wr then fd in a.wfds else fd in a.rfds
  }

  /** Event e, in state p, ends the watch of fd for writing, or for reading. */
  predicate Ends(p: Poll, e: Event, fd: nat, wr: bool) {
    || (e.RemoveBegin? && e.fd == fd)
    || (e.Del? && p.pc.Calling? && p.pc.fd == fd && Asks(e.flag, wr))
  }

  lemma WatchStep(p: Poll, e: Event, fd: nat, wr: bool)
    requires Enabled(p, e)
    ensures IsWatched(Step(p, e).aio, fd, wr) <==>
      (e.Add? && e.fd == fd && Asks(e.flag, wr)) || (IsWatched(p.aio, fd, wr) && !Ends(p, e, fd, wr))
    ensures Step(p, e).aio.pipeFd == p.aio.pipeFd
  {
    if e.Add? {
      WatchExactly(p.aio, e.fd, e.flag);
    } else if e.RemoveBegin? {
      UnwatchExactly(p.aio, e.fd, RdWr);
    } else if e.Del? {
      UnwatchExactly(p.aio, p.pc.fd, e.flag);
    }
    hide Watch, Unwatch, Ascending;
  }

  /** Event i asked for the watch, and no later event before n ended it. */
  ghost predicate AskedAt(ss: seq<Poll>, es: seq<Event>, fd: nat, wr: bool, i: nat, n: nat) {
    && i < n <= |es| <= |ss|
    && es[i].Add? && es[i].fd == fd && Asks(es[i].flag, wr)
    && forall k | i < k < n :: !Ends(ss[k], es[k], fd, wr)
  }

  /** A descriptor is watched for writing, or for reading, iff a registration asked for that and it has
      not been ended since, by a removal or by a `del_callback` that asks for it. */
  lemma {:induction false} WatchedIff(pipeFd: nat, ss: seq<Poll>, es: seq<Event>, fd: nat, wr: bool, n: nat)
    requires Run(pipeFd, ss, es) && n <= |es| && fd != pipeFd
    ensures ss[n].aio.pipeFd == pipeFd
    ensures IsWatched(ss[n].aio, fd, wr) <==> exists i: nat :: AskedAt(ss, es, fd, wr, i, n)
  {
    hide Step, Enabled, IsWatched, Ends, Asks;
    if n == 0 {
      NothingWatched(pipeFd, fd, wr);
    } else {
      WatchedIff(pipeFd, ss, es, fd, wr, n - 1);
      assert Enabled(ss[n - 1], es[n - 1]) && ss[n] == Step(ss[n - 1], es[n - 1]);
      WatchStep(ss[n - 1], es[n - 1], fd, wr);
      AskedGrows(ss, es, fd, wr, n - 1, n);
    }
  }

  lemma NothingWatched(pipeFd: nat, fd: nat, wr: bool)
    requires fd != pipeFd
    ensures !IsWatched(Start(pipeFd).aio, fd, wr) && Start(pipeFd).aio.pipeFd == pipeFd
  {
  }

  lemma AskedGrows(ss: seq<Poll>, es: seq<Event>, fd: nat, wr: bool, m: nat, n: nat)
    requires n == m + 1 && m < |es| <= |ss|
    ensures (exists i: nat :: AskedAt(ss, es, fd, wr, i, n)) <==>
      || (es[m].Add? && es[m].fd == fd && Asks(es[m].flag, wr))
      || ((exists i: nat :: AskedAt(ss, es, fd, wr, i, m)) && !Ends(ss[m], es[m], fd, wr))
  {
    hide Ends, Asks;
    if i: nat :| AskedAt(ss, es, fd, wr, i, n) {
      assert i < m ==> AskedAt(ss, es, fd, wr, i, m);
    }
    if i: nat :| AskedAt(ss, es, fd, wr, i, m) {
      assert !Ends(ss[m], es[m], fd, wr) ==> AskedAt(ss, es, fd, wr, i, n);
    }
    assert es[m].Add? && es[m].fd == fd && Asks(es[m].flag, wr) ==> AskedAt(ss, es, fd, wr, m, n);
  }

  // ---- What is stored ----

  /** Event e, in state p, takes fd's callback away: the end of a removal, or a `del_callback` after
      which fd is not watched at all. */
  predicate Drops(p: Poll, e: Event, fd: nat)
    requires Enabled(p, e)
  {
    || (e.RemoveReturn? && p.removers[e.t].fd == fd)
    || (e.Del? && p.pc.fd == fd && fd !in Watched(Step(p, e).aio))
  }

  lemma StoreStep(p: Poll, e: Event, fd: nat)
    requires Enabled(p, e)
    ensures var cs := Step(p, e).callbacks;
      && (fd in cs <==> Adds(e, fd) || (fd in p.callbacks && !Drops(p, e, fd)))
      && (fd in cs ==> cs[fd] == if Adds(e, fd) then e.ch else p.callbacks[fd])
  {
    if e.Del? {
      UnwatchExactly(p.aio, p.pc.fd, e.flag);
    }
    hide Watch, Unwatch, Ascending;
  }

  /** Event i stored ch for fd, and no later event before n stored or dropped one. */
  ghost predicate StoredAt(ss: seq<Poll>, es: seq<Event>, fd: nat, ch: nat, i: nat, n: nat) {
    && i < n <= |es| <= |ss|
    && es[i].Add? && es[i].fd == fd && es[i].ch == ch
    && forall k | i < k < n :: Enabled(ss[k], es[k]) && !Adds(es[k], fd) && !Drops(ss[k], es[k], fd)
  }

  /** The stored callback is the one of the last registration, until it is dropped. */
  lemma {:induction false} StoredIff(pipeFd: nat, ss: seq<Poll>, es: seq<Event>, fd: nat, ch: nat, n: nat)
    requires Run(pipeFd, ss, es) && n <= |es|
    ensures fd in ss[n].callbacks && ss[n].callbacks[fd] == ch <==> exists i: nat :: StoredAt(ss, es, fd, ch, i, n)
  {
    if n > 0 {
      var m := n - 1;
      var p, e := ss[m], es[m];
      StoredIff(pipeFd, ss, es, fd, ch, m);
      assert Enabled(p, e) && ss[n] == Step(p, e);
      hide Run, Step, Enabled, Drops;
      StoreStep(p, e, fd);
      if i: nat :| StoredAt(ss, es, fd, ch, i, n) {
        assert i < m ==> StoredAt(ss, es, fd, ch, i, m);
      }
      if i: nat :| StoredAt(ss, es, fd, ch, i, m) {
        assert !Adds(e, fd) && !Drops(p, e, fd) ==> StoredAt(ss, es, fd, ch, i, n);
      }
      assert Adds(e, fd) && e.ch == ch ==> StoredAt(ss, es, fd, ch, n - 1, n);
    }
  }

  // ---- What is called ----

  /** A descriptor that `select` reported, for writing or for reading. */
  datatype Item = Item(fd: nat, wr: bool)

  function Tagged(fds: seq<nat>, wr: bool): (r: seq<Item>)
    ensures |r| == |fds|
  {
    seq(|fds|, i requires 0 <= i < |fds| => Item(fds[i], wr))
  }

  /** What is still to be served: readable descriptors first. */
  function Todo(pc: Pc): seq<Item> {
    if pc.Lists? || pc.Checked? || pc.Calling? then Tagged(pc.readable, false) + Tagged(pc.writable, true) else []
  }

  predicate Serving(pc: Pc) {
    pc.Lists? || pc.Checked? || pc.Calling?
  }

  /** `select` hands on exactly the ready descriptors, without the pipe's, each once for each kind. */
  lemma SelectListsReady(pipeFd: nat, ss: seq<Poll>, es: seq<Event>, n: nat)
    requires Run(pipeFd, ss, es) && n < |es| && es[n].Select?
    ensures var todo := Todo(ss[n + 1].pc);
      && (forall fd :: Item(fd, false) in todo <==> fd in es[n].r && fd != ss[n].aio.pipeFd)
      && (forall fd :: Item(fd, true) in todo <==> fd in es[n].w)
      && (forall i, j | 0 <= i < j < |todo| :: todo[i] != todo[j] && (todo[i].wr ==> todo[j].wr))
  {
    hide Ascending, Todo, Step, Enabled;
    assert Enabled(ss[n], es[n]) && ss[n + 1] == Step(ss[n], es[n]);
    hide Run;
    var p, e := ss[n], es[n];
    SelectTodo(p, e);
    AscendingIsSet(e.r - {p.aio.pipeFd}, p.pc.high + 1);
    AscendingIsSet(e.w, p.pc.high + 1);
    TaggedMembers(Ascending(e.r - {p.aio.pipeFd}, p.pc.high + 1), Ascending(e.w, p.pc.high + 1));
  }

  lemma SelectTodo(p: Poll, e: Event)
    requires Enabled(p, e) && e.Select?
    ensures p.pc.InSelect? && forall fd | fd in e.r || fd in e.w :: fd <= p.pc.high
    ensures Todo(Step(p, e).pc) ==
      Tagged(Ascending(e.r - {p.aio.pipeFd}, p.pc.high + 1), false) + Tagged(Ascending(e.w, p.pc.high + 1), true)
  {
    hide Ascending;
    forall fd | fd in e.r || fd in e.w ensures fd <= p.pc.high {
      assert fd in e.r + e.w;
    }
  }

  lemma TaggedMembers(r: seq<nat>, w: seq<nat>)
    ensures var todo := Tagged(r, false) + Tagged(w, true);
      && (forall fd :: Item(fd, false) in todo <==> fd in r)
      && (forall fd :: Item(fd, true) in todo <==> fd in w)
      && ((forall i, j | 0 <= i < j < |r| :: r[i] < r[j]) && (forall i, j | 0 <= i < j < |w| :: w[i] < w[j]) ==>
            forall i, j | 0 <= i < j < |todo| :: todo[i] != todo[j] && (todo[i].wr ==> todo[j].wr))
  {
    var todo := Tagged(r, false) + Tagged(w, true);
    forall fd | fd in r ensures Item(fd, false) in todo {
      var i :| 0 <= i < |r| && r[i] == fd;
      assert todo[i] == Item(fd, false);
    }
    forall fd | fd in w ensures Item(fd, true) in todo {
      var i :| 0 <= i < |w| && w[i] == fd;
      assert todo[|r| + i] == Item(fd, true);
    }
  }

  /** One test of a listed descriptor: with a callback it comes to be called, for what it was listed;
      without, it is passed over; and with nothing left the thread is back at the top. */
  lemma TestsNext(p: Poll)
    requires p.pc.Lists?
    ensures var todo, pc1 := Todo(p.pc), Step(p, CheckNext).pc;
      if todo == [] then pc1.Top?
      else
        && Serving(pc1) && Todo(pc1) == todo[1..]
        && (todo[0].fd in p.callbacks ==> pc1.Checked? && pc1.fd == todo[0].fd && pc1.wr == todo[0].wr)
        && (todo[0].fd !in p.callbacks ==> pc1.Lists?)
  {
    hide Watch, Unwatch, Ascending, Tagged;
    var rs, ws := p.pc.readable, p.pc.writable;
    if rs != [] {
      TaggedHead(rs, false);
      assert ([Item(rs[0], false)] + Tagged(rs[1..], false) + Tagged(ws, true))[1..]
          == Tagged(rs[1..], false) + Tagged(ws, true);
    } else if ws != [] {
      TaggedHead(ws, true);
      assert Tagged(rs, false) + Tagged(ws, true) == Tagged(ws, true);
      assert Tagged(rs, false) + Tagged(ws[1..], true) == Tagged(ws[1..], true);
    }
  }

  lemma TaggedHead(fds: seq<nat>, wr: bool)
    requires fds != []
    ensures Tagged(fds, wr) == [Item(fds[0], wr)] + Tagged(fds[1..], wr)
    ensures Tagged(fds, wr)[1..] == Tagged(fds[1..], wr)
  {
  }

  /** The call is of the callback that was tested, and afterwards the lists are where they were. */
  lemma CallsTested(p: Poll)
    ensures p.pc.Checked? ==>
      var pc1 := Step(p, Call).pc; pc1.Calling? && pc1.fd == p.pc.fd && pc1.wr == p.pc.wr && Todo(pc1) == Todo(p.pc)
    ensures p.pc.Calling? ==> Step(p, Return).pc.Lists? && Todo(Step(p, Return).pc) == Todo(p.pc)
  {
  }

  /** The items tested by events i to n - 1, and which of them had a callback. */
  ghost function Tests(ss: seq<Poll>, es: seq<Event>, i: nat, n: nat): seq<bool>
    requires i <= n <= |es| <= |ss|
    decreases n
  {
    if n == i then []
    else
      var p := ss[n - 1];
      Tests(ss, es, i, n - 1) +
      (if es[n - 1].CheckNext? && Todo(p.pc) != [] then [Todo(p.pc)[0].fd in p.callbacks] else [])
  }

  /** The callbacks that events i to n - 1 came to call. */
  ghost function Called(ss: seq<Poll>, es: seq<Event>, i: nat, n: nat): seq<Item>
    requires i <= n <= |es| < |ss|
    decreases n
  {
    if n == i then []
    else
      Called(ss, es, i, n - 1) +
      (if es[n - 1].CheckNext? && ss[n].pc.Checked? then [Item(ss[n].pc.fd, ss[n].pc.wr)] else [])
  }

  /** The items, of those tested, that had a callback. */
  function Found(items: seq<Item>, found: seq<bool>): seq<Item>
    requires |items| == |found|
  {
    if items == [] then []
    else
      var m := |items| - 1;
      Found(items[..m], found[..m]) + (if found[m] then [items[m]] else [])
  }

  /** While a batch is served, the items tested so far and those still to be served make up the batch,
      in order; and what was called is exactly what was tested and had a callback. */
  lemma {:induction false} BatchIsServed(pipeFd: nat, ss: seq<Poll>, es: seq<Event>, i: nat, n: nat)
    requires Run(pipeFd, ss, es) && i <= n <= |es|
    requires forall k | i <= k <= n :: Serving(ss[k].pc)
    ensures var batch, c := Todo(ss[i].pc), |Tests(ss, es, i, n)|;
      && c <= |batch| && Todo(ss[n].pc) == batch[c..]
      && Called(ss, es, i, n) == Found(batch[..c], Tests(ss, es, i, n))
    decreases n
  {
    hide Step, Enabled, Todo, Found;
    var batch := Todo(ss[i].pc);
    if n == i {
      assert batch[..0] == [] && batch[0..] == batch;
      FoundNone();
    } else {
      var p, e := ss[n - 1], es[n - 1];
      BatchIsServed(pipeFd, ss, es, i, n - 1);
      assert Enabled(p, e) && ss[n] == Step(p, e);
      var c, tests := |Tests(ss, es, i, n - 1)|, Tests(ss, es, i, n - 1);
      assert Serving(p.pc) && Serving(ss[n].pc);
      if e.CheckNext? {
        ListsOf(p, e);
        TestsNext(p);
        var found := batch[c].fd in p.callbacks;
        assert Todo(p.pc)[0] == batch[c];
        FoundAdd(batch, c, tests, found);
      } else {
        SameTodo(p, e);
        assert Tests(ss, es, i, n) == tests && Called(ss, es, i, n) == Called(ss, es, i, n - 1);
      }
    }
  }

  lemma FoundNone()
    ensures Found([], []) == []
  {
  }

  lemma FoundAdd(batch: seq<Item>, c: nat, tests: seq<bool>, b: bool)
    requires |tests| == c < |batch|
    ensures Found(batch[..c + 1], tests + [b]) == Found(batch[..c], tests) + (if b then [batch[c]] else [])
  {
    assert batch[..c + 1][..c] == batch[..c] && (tests + [b])[..c] == tests;
  }

  lemma ListsOf(p: Poll, e: Event)
    requires Enabled(p, e) && e.CheckNext?
    ensures p.pc.Lists?
  {
  }

  lemma SameTodo(p: Poll, e: Event)
    requires Enabled(p, e) && Serving(p.pc) && !e.CheckNext?
    ensures Todo(Step(p, e).pc) == Todo(p.pc)
  {
    hide Unwatch, Watch, Ascending;
  }

  /** The two loops of `wait_loop`; `found[k]` is what the k-th null test of the batch finds. */
  method ServeBatch(readable: seq<nat>, writable: seq<nat>, found: seq<bool>) returns (calls: seq<Item>)
    requires |found| == |readable| + |writable|
    ensures calls == Found(Tagged(readable, false) + Tagged(writable, true), found)
  {
    calls := [];
    ghost var batch := Tagged(readable, false) + Tagged(writable, true);
    var i := 0;
    while i < |readable|
      invariant 0 <= i <= |readable|
      invariant calls == Found(batch[..i], found[..i])
    {
      if found[i] {
        calls := calls + [Item(readable[i], false)];
      }
      assert batch[..i + 1][..i] == batch[..i] && found[..i + 1][..i] == found[..i];
      i := i + 1;
    }
    i := 0;
    while i < |writable|
      invariant 0 <= i <= |writable|
      invariant calls == Found(batch[..|readable| + i], found[..|readable| + i])
    {
      var k := |readable| + i;
      if found[k] {
        calls := calls + [Item(writable[i], true)];
      }
      assert batch[..k + 1][..k] == batch[..k] && found[..k + 1][..k] == found[..k];
      i := i + 1;
    }
    assert batch[..|batch|] == batch && found[..|found|] == found;
  }
}
