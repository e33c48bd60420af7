/** The lock server: `lock` (lock_protocol.h:22-63) and the monitor of `lock_server.cc:24-63`. A
    step is what one thread does between taking the mutex and giving it up, by unlocking or by
    `pthread_cond_wait`. */
module LockServer {

  /** `lock`: the state and the owner. */
  datatype LockRec = LockRec(locked: bool, clt: int)

  /** A thread executing `grant`: the acquire call's client nonce and its execution number. */
  datatype Tid = Tid(client: nat, exec: nat)

  /** A thread inside `pthread_cond_wait`: asleep, or awakened and about to retake the mutex. */
  datatype Sleeper = Sleeper(lid: nat, clt: int, awake: bool)

  datatype Monitor = Monitor(locks: map<nat, LockRec>, sleepers: map<Tid, Sleeper>)

  const FREE: LockRec := LockRec(false, 0)

  function TryLock(l: LockRec, clt: int): (r: (LockRec, bool)) {
    if l.locked then (l, false) else (LockRec(true, clt), true)
  }

  /** `grant` from its entry to its first wait or its return. */
  function GrantEnter(m: Monitor, t: Tid, clt: int, lid: nat): (r: (Monitor, bool)) {
    if lid in m.locks && m.locks[lid].locked then
      (m.(sleepers := m.sleepers[t := Sleeper(lid, clt, false)]), false)
    else
      (m.(locks := m.locks[lid := LockRec(true, clt)]), true)
  }

  /** `grant` from a return of `pthread_cond_wait` to the next wait or its return. */
  function GrantResume(m: Monitor, t: Tid): (r: (Monitor, bool))
    requires t in m.sleepers && m.sleepers[t].lid in m.locks
  {
    var z := m.sleepers[t];
    if m.locks[z.lid].locked then
      (m.(sleepers := m.sleepers[t := z.(awake := false)]), false)
    else
      (Monitor(m.locks[z.lid := LockRec(true, z.clt)], m.sleepers - {t}), true)
  }

  function WakeUp(sleepers: map<Tid, Sleeper>, woken: set<Tid>): map<Tid, Sleeper> {
    map t | t in sleepers :: if t in woken then sleepers[t].(awake := true) else sleepers[t]
  }

  ghost predicate Asleep(m: Monitor, t: Tid, lid: nat) {
    t in m.sleepers && m.sleepers[t].lid == lid && !m.sleepers[t].awake
  }

  ghost predicate AwakeFor(m: Monitor, t: Tid, lid: nat) {
    t in m.sleepers && m.sleepers[t].lid == lid && m.sleepers[t].awake
  }

  /** `pthread_cond_signal` wakes at least one of the threads asleep on the condition, if any. */
  ghost predicate SignalWakes(m: Monitor, lid: nat, woken: set<Tid>) {
    && (forall t | t in woken :: Asleep(m, t, lid))
    && (woken == {} ==> forall t :: !Asleep(m, t, lid))
  }

  /** `release`; `woken` are the threads its signal wakes. */
  function Release(m: Monitor, clt: int, lid: nat, woken: set<Tid>): Monitor
    requires lid in m.locks
  {
    if m.locks[lid].locked && clt == m.locks[lid].clt then
      Monitor(m.locks[lid := FREE], WakeUp(m.sleepers, woken))
    else m
  }

  // ---- The monitor as a transition system ----

  datatype Event =
    | Enter(t: Tid, clt: int, lid: nat)
    | Resume(t: Tid)
    | Spurious(t: Tid)
    | Unlock(clt: int, lid: nat, woken: set<Tid>)

  ghost predicate Enabled(m: Monitor, e: Event) {
    match e
    case Enter(t, clt, lid) => t !in m.sleepers
    case Resume(t) => t in m.sleepers && m.sleepers[t].awake && m.sleepers[t].lid in m.locks
    case Spurious(t) => t in m.sleepers
    case Unlock(clt, lid, woken) => lid in m.locks && SignalWakes(m, lid, woken)
  }

  function Step(m: Monitor, e: Event): Monitor
    requires Enabled(m, e)
  {
    match e
    case Enter(t, clt, lid) => GrantEnter(m, t, clt, lid).0
    case Resume(t) => GrantResume(m, t).0
    case Spurious(t) => m.(sleepers := WakeUp(m.sleepers, {t}))
    case Unlock(clt, lid, woken) => Release(m, clt, lid, woken)
  }

  /** If a lock is free and a thread sleeps on it, then an awakened thread for it is pending. */
  ghost predicate NoLostWakeup(m: Monitor) {
    && (forall t | t in m.sleepers :: m.sleepers[t].lid in m.locks)
    && (forall lid, t | lid in m.locks && !m.locks[lid].locked && Asleep(m, t, lid) :: exists u :: AwakeFor(m, u, lid))
  }

  lemma StepKeepsNoLostWakeup(m: Monitor, e: Event)
    requires NoLostWakeup(m) && Enabled(m, e)
    ensures NoLostWakeup(Step(m, e))
  {
    var m' := Step(m, e);
    forall lid, t | lid in m'.locks && !m'.locks[lid].locked && Asleep(m', t, lid)
      ensures exists u :: AwakeFor(m', u, lid)
    {
      assert Asleep(m, t, lid);
      if e.Unlock? && e.lid == lid && m.locks[lid].locked {
        assert e.woken != {};
        var u :| u in e.woken;
        assert AwakeFor(m', u, lid);
      } else {
        var u :| AwakeFor(m, u, lid);
        assert AwakeFor(m', u, lid);
      }
    }
  }

  /** In every interleaving, with barging and spurious wakeups. */
  lemma {:induction false} NeverLosesWakeup(ms: seq<Monitor>, es: seq<Event>, i: nat)
    requires |ms| == |es| + 1 && ms[0] == Monitor(map[], map[])
    requires forall k | 0 <= k < |es| :: Enabled(ms[k], es[k]) && ms[k + 1] == Step(ms[k], es[k])
    requires i < |ms|
    ensures NoLostWakeup(ms[i])
  {
    if i > 0 {
      NeverLosesWakeup(ms, es, i - 1);
      StepKeepsNoLostWakeup(ms[i - 1], es[i - 1]);
      assert ms[i] == Step(ms[i - 1], es[i - 1]);
    }
  }

  /** A waiter for a free lock is never stuck: some thread can retake the mutex and get the lock. */
  lemma FreeLockIsTaken(m: Monitor, lid: nat, t: Tid) returns (u: Tid)
    requires NoLostWakeup(m)
    requires lid in m.locks && !m.locks[lid].locked && t in m.sleepers && m.sleepers[t].lid == lid
    ensures Enabled(m, Resume(u)) && GrantResume(m, u).1
    ensures Step(m, Resume(u)).locks[lid] == LockRec(true, m.sleepers[u].clt)
  {
    if Asleep(m, t, lid) {
      u :| AwakeFor(m, u, lid);
    } else {
      u := t;
    }
  }

  /** A lock changes hands only through a free state: no step replaces an owner, and only a release
      in the owner's name frees a lock. */
  lemma OwnerIsStable(m: Monitor, e: Event, lid: nat)
    requires Enabled(m, e) && lid in m.locks && m.locks[lid].locked
    ensures lid in Step(m, e).locks
    ensures Step(m, e).locks[lid] == m.locks[lid]
      || (e.Unlock? && e.lid == lid && e.clt == m.locks[lid].clt && Step(m, e).locks[lid] == FREE)
  {
  }

  // ---- Single passes ----

  /** A lock that no one has asked for, or that was given back, is not taken. */
  predicate Taken(m: Monitor, lid: nat) {
    lid in m.locks && m.locks[lid].locked
  }

  /** `grant`, on arrival and after a wait: it returns iff the lock is not taken, and then the lock is
      taken in the caller's name and the caller waits no more; else the caller sleeps. No other lock
      and no other thread is touched. */
  lemma GrantExactly(m: Monitor, t: Tid, clt: int, lid: nat)
    requires t in m.sleepers ==> m.sleepers[t].lid == lid && m.sleepers[t].clt == clt && lid in m.locks
    ensures var (m1, granted) := if t in m.sleepers then GrantResume(m, t) else GrantEnter(m, t, clt, lid);
      && (granted <==> !Taken(m, lid))
      && (granted ==> Taken(m1, lid) && m1.locks[lid].clt == clt && t !in m1.sleepers)
      && (!granted ==> m1.locks == m.locks && Asleep(m1, t, lid) && m1.sleepers[t].clt == clt)
      && (forall l | l in m.locks && l != lid :: l in m1.locks && m1.locks[l] == m.locks[l])
      && (forall u | u in m.sleepers && u != t :: u in m1.sleepers && m1.sleepers[u] == m.sleepers[u])
  {
  }

  /** `release`: by the owner of a taken lock it frees the lock and wakes the signalled threads; else
      nothing changes. */
  lemma ReleaseExactly(m: Monitor, clt: int, lid: nat, woken: set<Tid>)
    requires lid in m.locks
    ensures var m1 := Release(m, clt, lid, woken);
      && (!(Taken(m, lid) && m.locks[lid].clt == clt) ==> m1 == m)
      && (Taken(m, lid) && m.locks[lid].clt == clt ==>
            && !Taken(m1, lid) && m1.locks.Keys == m.locks.Keys
            && (forall l | l in m.locks && l != lid :: m1.locks[l] == m.locks[l])
            && m1.sleepers.Keys == m.sleepers.Keys
            && forall t | t in m.sleepers :: m1.sleepers[t].awake == (m.sleepers[t].awake || t in woken)
                 && m1.sleepers[t].lid == m.sleepers[t].lid && m1.sleepers[t].clt == m.sleepers[t].clt)
  {
  }

  // ---- In place ----

  class Lock {
    var locked: bool
    var clt: int

    function Rec(): LockRec
      reads this
    {
      LockRec(locked, clt)
    }

    constructor ()
      ensures Rec() == FREE
    {
      locked, clt := false, 0;
    }

    method SetLocked(c: int) returns (ok: bool)
      modifies this
      ensures (Rec(), ok) == TryLock(old(Rec()), c)
    {
      if !locked {
        locked := true;
        clt := c;
        return true;
      }
      return false;
    }

    method SetFree()
      modifies this
      ensures Rec() == FREE
    {
      locked := false;
      clt := 0;
    }
  }

  class Server {
    var mapLocks: map<nat, Lock>
    var sleepers: map<Tid, Sleeper>

    /** Distinct lock ids have distinct lock objects. */
    ghost predicate Valid()
      reads this
    {
      forall a, b | a in mapLocks && b in mapLocks && a != b :: mapLocks[a] != mapLocks[b]
    }

    ghost function Objects(): set<object>
      reads this
    {
      set l | l in mapLocks :: mapLocks[l]
    }

    ghost function State(): Monitor
      reads this, Objects()
    {
      Monitor(map l | l in mapLocks :: mapLocks[l].Rec(), sleepers)
    }

    constructor ()
      ensures Valid() && State() == Monitor(map[], map[])
    {
      mapLocks, sleepers := map[], map[];
      new;
      assert State().locks == map[];
    }

    /** `Set_Locked` never fails here: the guards above it have seen the lock free. */
    method Grant(t: Tid, c: int, lid: nat) returns (granted: bool)
      requires Valid()
      modifies this, Objects()
      ensures Valid() && fresh(Objects() - old(Objects()))
      ensures (State(), granted) == GrantEnter(old(State()), t, c, lid)
    {
      if lid in mapLocks {
        if mapLocks[lid].locked {
          sleepers := sleepers[t := Sleeper(lid, c, false)];
          assert State().locks == old(State().locks);
          return false;
        }
        var ok := mapLocks[lid].SetLocked(c);
        assert ok;
      } else {
        var temp := new Lock();
        mapLocks := mapLocks[lid := temp];
        var ok := temp.SetLocked(c);
        assert ok;
      }
      assert State().locks == old(State().locks)[lid := LockRec(true, c)];
      granted := true;
    }

    method GrantAgain(t: Tid) returns (granted: bool)
      requires Valid() && t in sleepers && sleepers[t].lid in mapLocks
      modifies this, Objects()
      ensures Valid() && Objects() == old(Objects())
      ensures (State(), granted) == GrantResume(old(State()), t)
    {
      var z := sleepers[t];
      var l := mapLocks[z.lid];
      if l.locked {
        sleepers := sleepers[t := z.(awake := false)];
        assert State().locks == old(State().locks);
        return false;
      }
      var ok := l.SetLocked(z.clt);
      assert ok;
      sleepers := sleepers - {t};
      assert State().locks == old(State().locks)[z.lid := LockRec(true, z.clt)];
      granted := true;
    }

    /** A release in another client's name, or of a free lock, changes nothing. */
    method ReleaseLock(c: int, lid: nat, woken: set<Tid>)
      requires Valid() && lid in mapLocks
      modifies this, Objects()
      ensures Valid() && Objects() == old(Objects())
      ensures State() == Release(old(State()), c, lid, woken)
    {
      var l := mapLocks[lid];
      if l.locked && c == l.clt {
        l.SetFree();
        sleepers := WakeUp(sleepers, woken);
        assert State().locks == old(State().locks)[lid := FREE];
      }
    }
  }
}
