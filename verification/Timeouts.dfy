/** Deadlines and the retry loop of `call1` (rpc/rpc.cc:215-270, 999-1027). */
module Timeouts {
  import opened RpcTypes

  datatype Timespec = Timespec(sec: int, nsec: int)

  const BILLION: int := 1_000_000_000
  const MILLION: int := 1_000_000
  const TO_MIN: nat := 1000

  function Total(t: Timespec): int {
    t.sec * BILLION + t.nsec
  }

  /** C's `/` and `%`: they truncate towards zero. */
  function TruncDiv(a: int, b: int): int
    requires b > 0
  {
    if a >= 0 then a / b else -(-a / b)
  }

  function TruncMod(a: int, b: int): int
    requires b > 0
  {
    a - TruncDiv(a, b) * b
  }

  /** The carry loop: it stops at 10^9 nanoseconds, not below. */
  function Carry(sec: int, nsec: int): Timespec
    decreases nsec
  {
    if nsec > BILLION then Carry(sec + 1, nsec - BILLION) else Timespec(sec, nsec)
  }

  /** `None` when the assertion on `tv_nsec` fails. */
  function AddTimespec(a: Timespec, b: int): Option<Timespec> {
    var nsec := a.nsec + TruncMod(b, 1000) * MILLION;
    if nsec < 0 then None else Some(Carry(a.sec + TruncDiv(b, 1000), nsec))
  }

  function CmpTimespec(a: Timespec, b: Timespec): int {
    if a.sec > b.sec then 1
    else if a.sec < b.sec then -1
    else if a.nsec > b.nsec then 1
    else if a.nsec < b.nsec then -1
    else 0
  }

  predicate Normal(t: Timespec) {
    0 <= t.nsec < BILLION
  }

  /** What `add_timespec` produces: nanoseconds up to and including 10^9. */
  predicate Produced(t: Timespec) {
    0 <= t.nsec <= BILLION
  }

  lemma {:induction false} CarryExact(sec: int, nsec: int)
    requires nsec >= 0
    ensures Total(Carry(sec, nsec)) == sec * BILLION + nsec
    ensures Produced(Carry(sec, nsec))
    ensures Carry(sec, nsec).nsec == BILLION <==> nsec > 0 && nsec % BILLION == 0
    ensures Carry(sec, nsec).sec >= sec
    decreases nsec
  {
    if nsec > BILLION {
      CarryExact(sec + 1, nsec - BILLION);
    }
  }

  /** Whenever it returns, `add_timespec` has added exactly b milliseconds. */
  lemma AddIsExact(a: Timespec, b: int)
    requires AddTimespec(a, b).Some?
    ensures Total(AddTimespec(a, b).value) == Total(a) + b * MILLION
    ensures Produced(AddTimespec(a, b).value)
  {
    CarryExact(a.sec + TruncDiv(b, 1000), a.nsec + TruncMod(b, 1000) * MILLION);
  }

  /** The result is left unnormalized, with 10^9 nanoseconds, iff the nanoseconds add up to a
      positive multiple of 10^9. */
  lemma AddUnnormalizedIff(a: Timespec, b: int)
    requires Normal(a) && b >= 0
    ensures AddTimespec(a, b).Some?
    ensures !Normal(AddTimespec(a, b).value) <==> a.nsec + b % 1000 * MILLION == BILLION
  {
    CarryExact(a.sec + TruncDiv(b, 1000), a.nsec + TruncMod(b, 1000) * MILLION);
  }

  /** 999 ms plus 1 ms. */
  lemma UnnormalizedSum(sec: int)
    ensures AddTimespec(Timespec(sec, 999 * MILLION), 1) == Some(Timespec(sec, BILLION))
  {
    assert TruncDiv(1, 1000) == 0 && TruncMod(1, 1000) == 1;
  }

  /** `cmp_timespec` never inverts two distinct instants that `add_timespec` produced. */
  lemma CmpNeverInverts(a: Timespec, b: Timespec)
    requires Produced(a) && Produced(b)
    ensures Total(a) < Total(b) ==> CmpTimespec(a, b) < 0
    ensures Total(a) > Total(b) ==> CmpTimespec(a, b) > 0
  {
    if a.sec > b.sec {
      assert Total(a) >= Total(b);
    } else if a.sec < b.sec {
      assert Total(a) <= Total(b);
    }
  }

  /** It tells equal instants apart exactly when one of them is unnormalized: (s, 10^9) against (s + 1, 0). */
  lemma CmpSplitsEqualInstantsIff(a: Timespec, b: Timespec)
    requires Produced(a) && Produced(b) && Total(a) == Total(b)
    ensures CmpTimespec(a, b) != 0 <==> Normal(a) != Normal(b)
  {
    if a.sec > b.sec {
      assert a.sec == b.sec + 1;
    } else if a.sec < b.sec {
      assert b.sec == a.sec + 1;
    }
  }

  /** Two deadlines at the same instant, both computed by `add_timespec`, that compare unequal. */
  lemma EqualDeadlinesDiffer(sec: int)
    ensures var x, y := AddTimespec(Timespec(sec, 999 * MILLION), 1), AddTimespec(Timespec(sec + 1, 0), 0);
      x.Some? && y.Some? && Total(x.value) == Total(y.value) && CmpTimespec(x.value, y.value) < 0
  {
    UnnormalizedSum(sec);
    assert TruncDiv(0, 1000) == 0 && TruncMod(0, 1000) == 0;
    assert AddTimespec(Timespec(sec + 1, 0), 0) == Some(Timespec(sec + 1, 0));
  }

  method AddTimespecLoop(a: Timespec, b: int) returns (result: Timespec)
    requires AddTimespec(a, b).Some?
    ensures AddTimespec(a, b) == Some(result)
  {
    var sec := a.sec + TruncDiv(b, 1000);
    var nsec := a.nsec + TruncMod(b, 1000) * MILLION;
    while nsec > BILLION
      invariant nsec >= 0
      invariant Carry(sec, nsec) == AddTimespec(a, b).value
      decreases nsec
    {
      sec := sec + 1;
      nsec := nsec - BILLION;
    }
    result := Timespec(sec, nsec);
  }

  function Pow2(n: nat): (r: nat)
    ensures r > 0
  {
    if n == 0 then 1 else 2 * Pow2(n - 1)
  }

  /** The integer part of the binary logarithm. */
  function Log2(n: nat): nat
    requires n > 0
  {
    if n == 1 then 0 else 1 + Log2(n / 2)
  }

  lemma {:induction false} Log2Bound(n: nat, k: nat)
    requires Pow2(k) <= n
    ensures k <= Log2(n)
  {
    if k > 0 {
      Log2Bound(n / 2, k - 1);
    }
  }

  // ---- The wait loop ----

  /** The clock readings of one call; reading 0 is taken before the loop, reading k by the k-th wait. */
  type Clock = nat -> Timespec

  ghost predicate RealTime(clock: Clock) {
    forall k: nat :: Normal(clock(k)) && clock(k).sec > 0 && Total(clock(k)) <= Total(clock(k + 1))
  }

  /** A reading plus a nonnegative timeout. */
  function Plus(a: Timespec, ms: nat): Timespec {
    Carry(a.sec + ms / 1000, a.nsec + ms % 1000 * MILLION)
  }

  lemma PlusIsAdd(a: Timespec, ms: nat)
    requires Normal(a)
    ensures AddTimespec(a, ms) == Some(Plus(a, ms))
    ensures Total(Plus(a, ms)) == Total(a) + ms * MILLION && Produced(Plus(a, ms))
    ensures Plus(a, ms).sec >= a.sec
  {
    CarryExact(a.sec + ms / 1000, a.nsec + ms % 1000 * MILLION);
  }

  function FinalDeadline(clock: Clock, to: nat): Timespec {
    Plus(clock(0), to)
  }

  function NextDeadline(clock: Clock, k: nat): Timespec
    requires k >= 1
  {
    Plus(clock(k), TO_MIN * Pow2(k - 1))
  }

  /** The deadline of the k-th wait. */
  function Deadline(clock: Clock, to: nat, k: nat): Timespec
    requires k >= 1
  {
    if CmpTimespec(NextDeadline(clock, k), FinalDeadline(clock, to)) > 0 then FinalDeadline(clock, to)
    else NextDeadline(clock, k)
  }

  function Min(a: int, b: int): int {
    if a < b then a else b
  }

  /** The k-th wait ends a second, doubled k - 1 times, after it began, or with the whole timeout, if
      that is earlier. */
  lemma DeadlineExactly(clock: Clock, to: nat, k: nat)
    requires RealTime(clock) && k >= 1
    ensures Total(Deadline(clock, to, k)) ==
      Min(Total(clock(k)) + Pow2(k - 1) * BILLION, Total(clock(0)) + to * MILLION)
  {
    PlusIsAdd(clock(k), TO_MIN * Pow2(k - 1));
    PlusIsAdd(clock(0), to);
    CmpNeverInverts(NextDeadline(clock, k), FinalDeadline(clock, to));
  }

  /** Whether the reply of the call is there before the k-th wait begins, arrives during it (which it
      can only while the wait has given up the caller's mutex), or neither. */
  datatype Arrival = Before | During | Never

  /** How a wait ends. POSIX has `pthread_cond_timedwait` reject a deadline of 10^9 nanoseconds or more
      at once, with the mutex still held; the inner loop leaves only for a reply or ETIMEDOUT, so it
      then spins for ever, and with `ca.m` held no reply can be filled in. */
  datatype WaitEnd = Replied | TimedOut | Spins

  function EndOfWait(deadline: Timespec, a: Arrival): WaitEnd {
    if a.Before? then Replied
    else if !Normal(deadline) then Spins
    else if a.During? then Replied
    else TimedOut
  }

  /** A wait that times out returns no earlier than its deadline. */
  ghost predicate TimesOutOnTime(clock: Clock, to: nat, arrives: nat -> Arrival) {
    forall k: nat | k >= 1 && EndOfWait(Deadline(clock, to, k), arrives(k)).TimedOut? ::
      Total(clock(k + 1)) >= Total(Deadline(clock, to, k))
  }

  /** The k-th wait would be the one that uses the final deadline. */
  predicate IsLast(clock: Clock, to: nat, k: nat)
    requires k >= 1
  {
    CmpTimespec(NextDeadline(clock, k), FinalDeadline(clock, to)) > 0
  }

  /** The reply is there before the last wait begins: in the k-th wait, none of the waits before which
      is the last, and before it if it is the last itself. */
  ghost predicate AnsweredAt(clock: Clock, to: nat, arrives: nat -> Arrival, k: nat) {
    && k >= 1
    && (forall j: nat | 1 <= j < k :: !IsLast(clock, to, j))
    && (arrives(k).Before? || (arrives(k).During? && !IsLast(clock, to, k)))
  }

  ghost predicate RepliesInTime(clock: Clock, to: nat, arrives: nat -> Arrival) {
    exists k: nat :: AnsweredAt(clock, to, arrives, k)
  }

  /** Doubled timeouts are whole seconds, so only the final deadline can be unnormalized. */
  lemma NextIsNormal(clock: Clock, k: nat)
    requires RealTime(clock) && k >= 1
    ensures Normal(NextDeadline(clock, k))
  {
    var ms := TO_MIN * Pow2(k - 1);
    assert ms % 1000 == 0;
  }

  lemma FinalIsNormalIff(clock: Clock, to: nat)
    requires RealTime(clock)
    ensures Normal(FinalDeadline(clock, to)) <==> clock(0).nsec + to % 1000 * MILLION != BILLION
  {
    CarryExact(clock(0).sec + to / 1000, clock(0).nsec + to % 1000 * MILLION);
  }

  /** Exactly when the n-th wait, reached by timeouts only, spins. */
  lemma SpinsIff(clock: Clock, to: nat, arrives: nat -> Arrival, n: nat)
    requires RealTime(clock) && n >= 1
    requires forall j: nat | 1 <= j < n ::
      !IsLast(clock, to, j) && EndOfWait(Deadline(clock, to, j), arrives(j)).TimedOut?
    requires EndOfWait(Deadline(clock, to, n), arrives(n)).TimedOut? ==> IsLast(clock, to, n)
    ensures EndOfWait(Deadline(clock, to, n), arrives(n)).Spins? <==>
      clock(0).nsec + to % 1000 * MILLION == BILLION && !RepliesInTime(clock, to, arrives)
  {
    FinalIsNormalIff(clock, to);
    NextIsNormal(clock, n);
    hide RealTime, Plus, CmpTimespec;
    if EndOfWait(Deadline(clock, to, n), arrives(n)).Spins? {
      assert IsLast(clock, to, n);
      forall k: nat ensures !AnsweredAt(clock, to, arrives, k) {
        if 1 <= k < n {
          assert EndOfWait(Deadline(clock, to, k), arrives(k)).TimedOut?;
        } else if k > n {
          assert !(forall j: nat | 1 <= j < k :: !IsLast(clock, to, j));
        }
      }
    } else if !Normal(FinalDeadline(clock, to)) {
      assert AnsweredAt(clock, to, arrives, n);
    }
  }

  /** All waits up to the k-th used a doubled timeout that fitted before the final deadline. */
  lemma WaitFits(clock: Clock, to: nat, k: nat)
    requires RealTime(clock) && k >= 1
    requires Total(clock(k)) >= Total(clock(0)) + TO_MIN * (Pow2(k - 1) - 1) * MILLION
    requires CmpTimespec(NextDeadline(clock, k), FinalDeadline(clock, to)) <= 0
    ensures TO_MIN * (Pow2(k) - 1) <= to
    ensures Total(NextDeadline(clock, k)) <= Total(FinalDeadline(clock, to))
    ensures Total(NextDeadline(clock, k)) >= Total(clock(0)) + TO_MIN * (Pow2(k) - 1) * MILLION
  {
    PlusIsAdd(clock(k), TO_MIN * Pow2(k - 1));
    PlusIsAdd(clock(0), to);
    CmpNeverInverts(NextDeadline(clock, k), FinalDeadline(clock, to));
  }

  /** Enough time has passed before reading k for all the timeouts used so far. */
  ghost predicate Elapsed(clock: Clock, k: nat) {
    k >= 1 ==> Total(clock(k)) >= Total(clock(0)) + TO_MIN * (Pow2(k - 1) - 1) * MILLION
  }

  /** One round of the loop, the k-th wait. */
  lemma WaitRound(clock: Clock, to: nat, arrives: nat -> Arrival, k: nat)
    requires RealTime(clock) && TimesOutOnTime(clock, to, arrives)
    requires k >= 1 && Elapsed(clock, k)
    ensures Total(Deadline(clock, to, k)) <= Total(FinalDeadline(clock, to))
    ensures !IsLast(clock, to, k) ==>
      && TO_MIN * (Pow2(k) - 1) <= to
      && (EndOfWait(Deadline(clock, to, k), arrives(k)).TimedOut? ==> Elapsed(clock, k + 1))
  {
    if !IsLast(clock, to, k) {
      WaitFits(clock, to, k);
    }
  }

  lemma FinalIsNotZero(clock: Clock, to: nat)
    requires RealTime(clock)
    ensures FinalDeadline(clock, to).sec > 0
  {
    PlusIsAdd(clock(0), to);
  }

  /** The loop of `call1`. `arrives(k)` says when the reply comes in relation to the k-th wait, `dead(k)`
      that the channel is dead or missing after it. The call sends once at the start and again after
      each wait that finds its channel dead, and makes a bounded number of waits, none with a deadline
      beyond the final one. It returns from them, with the reply or by giving up, unless the last one
      spins: iff the final deadline comes out as 10^9 nanoseconds and no reply was there before. */
  method WaitLoop(to: nat, retrans: bool, clock: Clock, arrives: nat -> Arrival, dead: nat -> bool)
    returns (end: WaitEnd, deadlines: seq<Timespec>, sends: seq<nat>)
    requires RealTime(clock) && TimesOutOnTime(clock, to, arrives)
    ensures |deadlines| >= 1
    ensures |deadlines| <= Log2(to / 1000 + 1) + 1
    ensures forall k | 0 <= k < |deadlines| ::
      deadlines[k] == Deadline(clock, to, k + 1) && Total(deadlines[k]) <= Total(FinalDeadline(clock, to))
    ensures end == EndOfWait(deadlines[|deadlines| - 1], arrives(|deadlines|))
    ensures forall k | 1 <= k < |deadlines| :: EndOfWait(deadlines[k - 1], arrives(k)).TimedOut?
    ensures !end.Replied? ==> deadlines[|deadlines| - 1] == FinalDeadline(clock, to)
    ensures end.Spins? <==> clock(0).nsec + to % 1000 * MILLION == BILLION && !RepliesInTime(clock, to, arrives)
    ensures forall k :: k in sends <==>
      k == 0 || (retrans && 1 <= k <= |deadlines| && EndOfWait(deadlines[k - 1], arrives(k)).TimedOut? && dead(k))
  {
    hide RealTime, TimesOutOnTime, Plus, CmpTimespec, Total, Log2, Pow2, Elapsed, Normal, RepliesInTime;
    FinalIsNotZero(clock, to);
    StartElapsed(clock);
    var final := FinalDeadline(clock, to);
    var currTo := TO_MIN;
    var transmit := true;
    var k := 0;
    end, deadlines, sends := TimedOut, [], [];
    while true
      invariant |deadlines| == k && currTo == TO_MIN * Pow2(k) && end.TimedOut?
      invariant forall j | 0 <= j < k ::
        deadlines[j] == Deadline(clock, to, j + 1) && Total(deadlines[j]) <= Total(FinalDeadline(clock, to))
      invariant forall j: nat | 1 <= j <= k :: EndOfWait(Deadline(clock, to, j), arrives(j)).TimedOut?
      invariant forall j: nat | 1 <= j <= k && (j < k || final.sec != 0) :: !IsLast(clock, to, j)
      invariant transmit <==> k == 0 || (retrans && dead(k))
      invariant forall j :: j in sends <==> 0 <= j < k && (j == 0 || (retrans && dead(j)))
      invariant k >= 1 ==> TO_MIN * (Pow2(k - 1) - 1) <= to
      invariant final.sec == 0 ==> k >= 1 && deadlines[k - 1] == FinalDeadline(clock, to) && IsLast(clock, to, k)
      invariant final.sec != 0 ==> final == FinalDeadline(clock, to) && TO_MIN * (Pow2(k) - 1) <= to && Elapsed(clock, k + 1)
      decreases final.sec != 0, to - TO_MIN * (Pow2(k) - 1)
    {
      if transmit {
        sends := sends + [k];
        transmit := false;
      }
      if final.sec == 0 {
        break;
      }
      k := k + 1;
      WaitRound(clock, to, arrives, k);
      Pow2Step(k - 1);
      NextIsNormal(clock, k);
      var next := Plus(clock(k), currTo);
      if CmpTimespec(next, final) > 0 {
        next := final;
        final := Timespec(0, final.nsec);
      }
      deadlines := deadlines + [next];
      end := EndOfWait(next, arrives(k));
      if !end.TimedOut? {
        break;
      }
      if retrans && dead(k) {
        transmit := true;
      }
      currTo := currTo * 2;
    }
    Log2Bound(to / 1000 + 1, |deadlines| - 1);
    SpinsIff(clock, to, arrives, |deadlines|);
  }

  // ---- A call that never returns ----

  /** The clock of a call with a timeout of 1500 ms that is made exactly half a second past. */
  function HalfPast(k: nat): Timespec {
    Timespec(if k < 2 then 1 else 2, 500 * MILLION)
  }

  function NoReply(k: nat): Arrival {
    Never
  }

  /** Its first wait times out, its second is the last and has the deadline (2, 10^9): it spins. */
  lemma SpinsForEver()
    ensures RealTime(HalfPast) && TimesOutOnTime(HalfPast, 1500, NoReply) && !RepliesInTime(HalfPast, 1500, NoReply)
    ensures HalfPast(0).nsec + 1500 % 1000 * MILLION == BILLION
    ensures EndOfWait(Deadline(HalfPast, 1500, 1), NoReply(1)).TimedOut?
    ensures IsLast(HalfPast, 1500, 2) && Deadline(HalfPast, 1500, 2) == Timespec(2, BILLION)
    ensures EndOfWait(Deadline(HalfPast, 1500, 2), NoReply(2)).Spins?
  {
    assert Pow2(0) == 1 && Pow2(1) == 2;
    assert FinalDeadline(HalfPast, 1500) == Timespec(2, BILLION);
    assert NextDeadline(HalfPast, 1) == Timespec(2, 500 * MILLION);
    assert NextDeadline(HalfPast, 2) == Timespec(4, 500 * MILLION);
    forall k: nat | k >= 1 && EndOfWait(Deadline(HalfPast, 1500, k), NoReply(k)).TimedOut?
      ensures Total(HalfPast(k + 1)) >= Total(Deadline(HalfPast, 1500, k))
    {
      if k > 1 {
        PlusIsAdd(HalfPast(k), TO_MIN * Pow2(k - 1));
        CmpNeverInverts(NextDeadline(HalfPast, k), FinalDeadline(HalfPast, 1500));
      }
    }
  }

  lemma Pow2Step(n: nat)
    ensures Pow2(n + 1) == 2 * Pow2(n)
  {
  }

  lemma StartElapsed(clock: Clock)
    requires RealTime(clock)
    ensures Pow2(0) == 1 && Elapsed(clock, 1)
  {
    assert Total(clock(0)) <= Total(clock(0 + 1));
  }
}
