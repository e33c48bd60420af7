/** The set of watched descriptors (rpc/pollmgr.cc:128-257): what is watched, the highest watched
    descriptor, and the pipe that wakes `select`. */
module SelectAio {
  datatype PollFlag = RdOnly | WrOnly | RdWr

  /** `pipe` is the number of unread bytes in the pipe whose read end is descriptor `pipeFd`. */
  datatype Aio = Aio(rfds: set<nat>, wfds: set<nat>, highfds: nat, pipeFd: nat, pipe: nat)

  function NewAio(pipeFd: nat): Aio {
    Aio({pipeFd}, {}, pipeFd, pipeFd, 0)
  }

  function Watched(a: Aio): set<nat> {
    a.rfds + a.wfds
  }

  /** The largest element of s that is at most n, or dflt. */
  function HighBelow(s: set<nat>, n: nat, dflt: nat): nat {
    if n in s then n else if n == 0 then dflt else HighBelow(s, n - 1, dflt)
  }

  /** The elements of s below n, in ascending order. */
  function Ascending(s: set<nat>, n: nat): seq<nat> {
    if n == 0 then [] else Ascending(s, n - 1) + (if n - 1 in s then [n - 1] else [])
  }

  function Watch(a: Aio, fd: nat, flag: PollFlag): Aio {
    a.(rfds := if flag.WrOnly? then a.rfds else a.rfds + {fd},
       wfds := if flag.RdOnly? then a.wfds else a.wfds + {fd},
       highfds := if a.highfds <= fd then fd else a.highfds,
       pipe := a.pipe + 1)
  }

  /** The second result tells whether the descriptor is no longer watched at all. */
  function Unwatch(a: Aio, fd: nat, flag: PollFlag): (Aio, bool) {
    var r := if flag.WrOnly? then a.rfds else a.rfds - {fd};
    var w := if flag.RdOnly? then a.wfds else a.wfds - {fd};
    var gone := fd !in r + w;
    (a.(rfds := r, wfds := w,
        highfds := if gone && fd == a.highfds then HighBelow(r + w, a.highfds, a.pipeFd) else a.highfds,
        pipe := if flag.RdWr? then a.pipe + 1 else a.pipe),
     gone)
  }

  /** `select` is told to look at descriptors up to `highfds`, and no watched one lies above it. */
  ghost predicate AioInv(a: Aio) {
    && a.pipeFd in a.rfds && a.pipeFd !in a.wfds
    && a.highfds in Watched(a)
    && forall fd | fd in Watched(a) :: fd <= a.highfds
  }

  lemma {:induction false} HighBelowIsMax(s: set<nat>, n: nat, dflt: nat)
    requires dflt in s && dflt <= n
    ensures HighBelow(s, n, dflt) in s
    ensures forall x | x in s && x <= n :: x <= HighBelow(s, n, dflt)
  {
    if n !in s {
      HighBelowIsMax(s, n - 1, dflt);
    }
  }

  /** `highfds_` stays the highest watched descriptor, as long as nobody touches the pipe's. */
  lemma WatchKeepsHigh(a: Aio, fd: nat, flag: PollFlag)
    requires AioInv(a) && fd != a.pipeFd
    ensures AioInv(Watch(a, fd, flag))
    ensures AioInv(Unwatch(a, fd, flag).0)
    ensures flag.RdWr? ==> Unwatch(a, fd, flag).1 && Unwatch(a, fd, flag).0.pipe == a.pipe + 1
  {
    var r := if flag.WrOnly? then a.rfds else a.rfds - {fd};
    var w := if flag.RdOnly? then a.wfds else a.wfds - {fd};
    assert a.pipeFd in Watched(a);
    HighBelowIsMax(r + w, a.highfds, a.pipeFd);
    var a1, a2 := Watch(a, fd, flag), Unwatch(a, fd, flag).0;
    assert forall x | x in Watched(a1) :: x in Watched(a) || x == fd;
    assert forall x | x in Watched(a2) :: x in Watched(a) && x in r + w;
  }

  predicate AsksRead(flag: PollFlag) {
    flag.RdOnly? || flag.RdWr?
  }

  predicate AsksWrite(flag: PollFlag) {
    flag.WrOnly? || flag.RdWr?
  }

  /** What `watch_fd` adds, and nothing else: the descriptor, to the sets that the flag asks for; and a
      byte in the pipe, so that a running `select` starts anew. */
  lemma WatchExactly(a: Aio, fd: nat, flag: PollFlag)
    ensures var a1 := Watch(a, fd, flag);
      && (forall x :: x in a1.rfds <==> x in a.rfds || (x == fd && AsksRead(flag)))
      && (forall x :: x in a1.wfds <==> x in a.wfds || (x == fd && AsksWrite(flag)))
      && a1.pipeFd == a.pipeFd && a1.pipe == a.pipe + 1
  {
  }

  /** What `unwatch_fd` takes away, and nothing else; and its result. */
  lemma UnwatchExactly(a: Aio, fd: nat, flag: PollFlag)
    ensures var (a1, gone) := Unwatch(a, fd, flag);
      && (forall x :: x in a1.rfds <==> x in a.rfds && !(x == fd && AsksRead(flag)))
      && (forall x :: x in a1.wfds <==> x in a.wfds && !(x == fd && AsksWrite(flag)))
      && (gone <==> fd !in a1.rfds && fd !in a1.wfds)
      && a1.pipeFd == a.pipeFd && a1.pipe == a.pipe + (if flag.RdWr? then 1 else 0)
  {
  }

  /** The list is exactly the part of the set below n, each descriptor once. */
  lemma {:induction false} AscendingIsSet(s: set<nat>, n: nat)
    ensures forall x :: x in Ascending(s, n) <==> x in s && x < n
    ensures forall i, j | 0 <= i < j < |Ascending(s, n)| :: Ascending(s, n)[i] < Ascending(s, n)[j]
  {
    if n > 0 {
      AscendingIsSet(s, n - 1);
      var l := Ascending(s, n - 1);
      assert forall i | 0 <= i < |l| :: l[i] in l;
    }
  }

  // ---- In place ----

  class SelectAIO {
    var rfds: set<nat>
    var wfds: set<nat>
    var highfds: nat
    const pipeFd: nat
    var pipe: nat

    ghost function State(): Aio
      reads this
    {
      Aio(rfds, wfds, highfds, pipeFd, pipe)
    }

    constructor (fd: nat)
      ensures State() == NewAio(fd)
    {
      pipeFd := fd;
      rfds, wfds := {fd}, {};
      highfds, pipe := fd, 0;
    }

    method WatchFd(fd: nat, flag: PollFlag)
      modifies this
      ensures State() == Watch(old(State()), fd, flag)
      ensures rfds == old(rfds) + (if AsksRead(flag) then {fd} else {})
      ensures wfds == old(wfds) + (if AsksWrite(flag) then {fd} else {})
    {
      if highfds <= fd {
        highfds := fd;
      }
      match flag {
        case RdOnly => rfds := rfds + {fd};
        case WrOnly => wfds := wfds + {fd};
        case RdWr =>
          rfds := rfds + {fd};
          wfds := wfds + {fd};
      }
      pipe := pipe + 1;
    }

    method UnwatchFd(fd: nat, flag: PollFlag) returns (gone: bool)
      modifies this
      ensures (State(), gone) == Unwatch(old(State()), fd, flag)
      ensures rfds == old(rfds) - (if AsksRead(flag) then {fd} else {})
      ensures wfds == old(wfds) - (if AsksWrite(flag) then {fd} else {})
    {
      match flag {
        case RdOnly => rfds := rfds - {fd};
        case WrOnly => wfds := wfds - {fd};
        case RdWr =>
          wfds := wfds - {fd};
          rfds := rfds - {fd};
      }
      if fd !in rfds && fd !in wfds {
        if fd == highfds {
          var newh := pipeFd;
          var i := 0;
          while i <= highfds
            invariant 0 <= i <= highfds + 1
            invariant newh == if i == 0 then pipeFd else HighBelow(rfds + wfds, i - 1, pipeFd)
          {
            if i in rfds {
              newh := i;
            } else if i in wfds {
              newh := i;
            }
            i := i + 1;
          }
          highfds := newh;
        }
      }
      if flag.RdWr? {
        pipe := pipe + 1;
      }
      gone := fd !in rfds && fd !in wfds;
    }

    method IsWatched(fd: nat, flag: PollFlag) returns (b: bool)
      ensures b <==> (flag.WrOnly? || fd in rfds) && (flag.RdOnly? || fd in wfds)
    {
      match flag
      case RdOnly => b := fd in rfds;
      case WrOnly => b := fd in wfds;
      case RdWr => b := fd in rfds && fd in wfds;
    }

    /** `wait_ready` after `select` has cut its copies of the sets down to the ready descriptors. */
    method CollectReady(trfds: set<nat>, twfds: set<nat>, high: nat) returns (readable: seq<nat>, writable: seq<nat>)
      requires pipeFd in trfds ==> pipe > 0
      requires pipeFd !in twfds && pipeFd <= high
      modifies this`pipe
      ensures pipe == if pipeFd in trfds then old(pipe) - 1 else old(pipe)
      ensures readable == Ascending(trfds - {pipeFd}, high + 1)
      ensures writable == Ascending(twfds, high + 1)
    {
      readable, writable := [], [];
      var fd := 0;
      while fd <= high
        invariant 0 <= fd <= high + 1
        invariant pipe == if pipeFd in trfds && pipeFd < fd then old(pipe) - 1 else old(pipe)
        invariant readable == Ascending(trfds - {pipeFd}, fd) && writable == Ascending(twfds, fd)
      {
        if fd == pipeFd && fd in trfds {
          pipe := pipe - 1;
        } else {
          if fd in twfds {
            writable := writable + [fd];
          }
          if fd in trfds {
            readable := readable + [fd];
          }
        }
        fd := fd + 1;
      }
    }
  }
}
