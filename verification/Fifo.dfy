/** The bounded blocking queue (rpc/fifo.h:49-92) as a monitor: what one thread does between taking
    the mutex and giving it up, by unlocking or by waiting on one of the two conditions. */
module Fifo {
  import opened RpcTypes

  /** A producer inside `pthread_cond_wait(&has_space_c_)`, with the element it wants to queue. */
  datatype Parked<T> = Parked(elem: T, awake: bool)

  /** `consumers` are the threads inside `pthread_cond_wait(&non_empty_c_)`, true once awakened;
      `max` is 0 for an unbounded queue. */
  datatype Queue<T> = Queue(q: seq<T>, max: nat, consumers: map<nat, bool>, producers: map<nat, Parked<T>>)

  function New<T>(max: nat): Queue<T> {
    Queue([], max, map[], map[])
  }

  function WakeConsumers(cs: map<nat, bool>, woken: set<nat>): map<nat, bool> {
    map t | t in cs :: cs[t] || t in woken
  }

  function WakeProducers<T>(ps: map<nat, Parked<T>>, woken: set<nat>): map<nat, Parked<T>> {
    map t | t in ps :: ps[t].(awake := ps[t].awake || t in woken)
  }

  predicate HasRoom<T>(s: Queue<T>) {
    s.max == 0 || |s.q| < s.max
  }

  /** One pass of `enq`'s loop by thread t; `woken` are the consumers its signal wakes. The result is
      None when the thread goes to sleep. */
  function Enq<T>(s: Queue<T>, t: nat, e: T, blocking: bool, woken: set<nat>): (r: (Queue<T>, Option<bool>)) {
    if HasRoom(s) then
      (s.(q := s.q + [e], consumers := WakeConsumers(s.consumers, woken), producers := s.producers - {t}), Some(true))
    else if blocking then
      (s.(producers := s.producers[t := Parked(e, false)]), None)
    else
      (s.(producers := s.producers - {t}), Some(false))
  }

  /** One pass of `deq`'s loop; None when the thread goes to sleep. */
  function Deq<T>(s: Queue<T>, t: nat, woken: set<nat>): (r: (Queue<T>, Option<T>)) {
    if s.q == [] then
      (s.(consumers := s.consumers[t := false]), None)
    else
      var s1 := s.(q := s.q[1..], consumers := s.consumers - {t});
      (if s.max != 0 && |s1.q| < s.max then s1.(producers := WakeProducers(s.producers, woken)) else s1,
       Some(s.q[0]))
  }

  // ---- Signals ----

  ghost predicate ConsumerSignal<T>(s: Queue<T>, woken: set<nat>) {
    && (forall t | t in woken :: t in s.consumers && !s.consumers[t])
    && (woken == {} ==> forall t | t in s.consumers :: s.consumers[t])
  }

  ghost predicate ProducerSignal<T>(s: Queue<T>, woken: set<nat>) {
    && (forall t | t in woken :: t in s.producers && !s.producers[t].awake)
    && (woken == {} ==> forall t | t in s.producers :: s.producers[t].awake)
  }

  /** Thread t may run a pass: it has just arrived, or it has been awakened. */
  predicate MayEnq<T(==)>(s: Queue<T>, t: nat, e: T, blocking: bool) {
    t in s.producers ==> s.producers[t] == Parked(e, true) && blocking
  }

  predicate MayDeq<T>(s: Queue<T>, t: nat) {
    t in s.consumers ==> s.consumers[t]
  }

  // ---- The counting invariant ----

  ghost function AwakeConsumers<T>(s: Queue<T>): set<nat> {
    set t | t in s.consumers && s.consumers[t]
  }

  ghost function AwakeProducers<T>(s: Queue<T>): set<nat> {
    set t | t in s.producers && s.producers[t].awake
  }

  ghost predicate ConsumersOk<T>(s: Queue<T>) {
    (forall t | t in s.consumers :: s.consumers[t]) || |AwakeConsumers(s)| >= |s.q|
  }

  ghost predicate ProducersOk<T>(s: Queue<T>) {
    && (s.max == 0 ==> s.producers == map[])
    && ((forall t | t in s.producers :: s.producers[t].awake) || |AwakeProducers(s)| >= s.max - |s.q|)
  }

  /** Bounded; and either nobody waits for an element or at least as many consumers are awake as
      elements are queued; and the same for producers and free slots. */
  ghost predicate Inv<T>(s: Queue<T>) {
    && (s.max != 0 ==> |s.q| <= s.max)
    && ConsumersOk(s) && ProducersOk(s)
  }

  lemma SetGrows(a: set<nat>, woken: set<nat>, b: set<nat>)
    requires a <= b && woken <= b && a !! woken && woken != {}
    ensures |b| >= |a| + 1
  {
    var t :| t in woken;
    assert a + {t} <= b;
    SubsetCard(a + {t}, b);
  }

  lemma {:induction false} SubsetCard(a: set<nat>, b: set<nat>)
    requires a <= b
    ensures |a| <= |b|
  {
    if a != {} {
      var t :| t in a;
      SubsetCard(a - {t}, b - {t});
    }
  }

  lemma EnqKeepsConsumers<T>(s: Queue<T>, t: nat, e: T, blocking: bool, woken: set<nat>)
    requires Inv(s) && (HasRoom(s) ==> ConsumerSignal(s, woken))
    ensures ConsumersOk(Enq(s, t, e, blocking, woken).0)
  {
    var s' := Enq(s, t, e, blocking, woken).0;
    if HasRoom(s) {
      if woken == {} {
        assert forall u | u in s'.consumers :: s'.consumers[u];
      } else {
        SetGrows(AwakeConsumers(s), woken, AwakeConsumers(s'));
        var u :| u in woken;
        assert u in s.consumers && !s.consumers[u];
      }
    } else {
      assert AwakeConsumers(s') == AwakeConsumers(s);
    }
  }

  lemma EnqKeepsProducers<T>(s: Queue<T>, t: nat, e: T, blocking: bool, woken: set<nat>)
    requires Inv(s) && MayEnq(s, t, e, blocking)
    ensures ProducersOk(Enq(s, t, e, blocking, woken).0)
  {
    var s' := Enq(s, t, e, blocking, woken).0;
    if HasRoom(s) || !blocking {
      assert AwakeProducers(s') == AwakeProducers(s) - {t};
      assert |AwakeProducers(s')| >= |AwakeProducers(s)| - 1;
    }
  }

  /** `enq` keeps the invariant, for arriving and for awakened threads, with any signal choice. */
  lemma EnqKeepsInv<T>(s: Queue<T>, t: nat, e: T, blocking: bool, woken: set<nat>)
    requires Inv(s) && MayEnq(s, t, e, blocking) && (HasRoom(s) ==> ConsumerSignal(s, woken))
    ensures Inv(Enq(s, t, e, blocking, woken).0)
  {
    EnqKeepsConsumers(s, t, e, blocking, woken);
    EnqKeepsProducers(s, t, e, blocking, woken);
  }

  lemma DeqKeepsConsumers<T>(s: Queue<T>, t: nat, woken: set<nat>)
    requires Inv(s) && MayDeq(s, t)
    ensures ConsumersOk(Deq(s, t, woken).0)
  {
    var s' := Deq(s, t, woken).0;
    if s.q != [] {
      assert AwakeConsumers(s') == AwakeConsumers(s) - {t};
      assert |AwakeConsumers(s')| >= |AwakeConsumers(s)| - 1;
    }
  }

  lemma DeqKeepsProducers<T>(s: Queue<T>, t: nat, woken: set<nat>)
    requires Inv(s) && (s.q != [] && s.max != 0 ==> ProducerSignal(s, woken))
    ensures ProducersOk(Deq(s, t, woken).0)
  {
    var s' := Deq(s, t, woken).0;
    if s.q != [] && s.max != 0 {
      if woken == {} {
        assert forall u | u in s'.producers :: s'.producers[u].awake;
      } else {
        SetGrows(AwakeProducers(s), woken, AwakeProducers(s'));
        var u :| u in woken;
        assert u in s.producers && !s.producers[u].awake;
      }
    } else {
      assert s'.producers == s.producers;
    }
  }

  lemma DeqKeepsInv<T>(s: Queue<T>, t: nat, woken: set<nat>)
    requires Inv(s) && MayDeq(s, t) && (s.q != [] && s.max != 0 ==> ProducerSignal(s, woken))
    ensures Inv(Deq(s, t, woken).0)
  {
    DeqKeepsConsumers(s, t, woken);
    DeqKeepsProducers(s, t, woken);
  }

  /** Spurious wakeups only add awakened threads. */
  lemma SpuriousKeepsInv<T>(s: Queue<T>, cs: set<nat>, ps: set<nat>)
    requires Inv(s)
    ensures Inv(s.(consumers := WakeConsumers(s.consumers, cs), producers := WakeProducers(s.producers, ps)))
  {
    var s' := s.(consumers := WakeConsumers(s.consumers, cs), producers := WakeProducers(s.producers, ps));
    SubsetCard(AwakeConsumers(s), AwakeConsumers(s'));
    SubsetCard(AwakeProducers(s), AwakeProducers(s'));
  }

  /** No lost wakeup: with elements queued some consumer is not asleep, unless none is waiting; with
      room left some producer is not asleep, unless none is waiting. */
  lemma SomeoneIsAwake<T>(s: Queue<T>)
    requires Inv(s)
    ensures s.q != [] && s.consumers != map[] ==> exists t :: t in s.consumers && s.consumers[t]
    ensures HasRoom(s) && s.producers != map[] ==> exists t :: t in s.producers && s.producers[t].awake
  {
    if s.q != [] && s.consumers != map[] {
      assert s.consumers.Keys != {};
      var u :| u in s.consumers;
      if !s.consumers[u] {
        assert |AwakeConsumers(s)| > 0;
        var t :| t in AwakeConsumers(s);
      }
    }
    if HasRoom(s) && s.producers != map[] {
      assert s.producers.Keys != {};
      var u :| u in s.producers;
      if !s.producers[u].awake {
        assert |AwakeProducers(s)| > 0;
        var t :| t in AwakeProducers(s);
      }
    }
  }

  // ---- Single passes ----

  /** The result of a pass of `enq`, and what it does to the queue and to the threads: true iff there is
      room, false iff there is none and the call does not block, and otherwise the thread sleeps with
      its element. Nobody else is put to sleep, and only signalled consumers are awakened. */
  lemma EnqExactly<T>(s: Queue<T>, t: nat, e: T, blocking: bool, woken: set<nat>)
    ensures var (s1, r) := Enq(s, t, e, blocking, woken);
      var full := s.max != 0 && |s.q| >= s.max;
      && (r == Some(true) <==> !full) && (r == Some(false) <==> full && !blocking) && (r.None? <==> full && blocking)
      && s1.max == s.max && s1.q == (if full then s.q else s.q + [e])
      && (r.None? ==> s1.producers == s.producers[t := Parked(e, false)])
      && (r.Some? ==> s1.producers == s.producers - {t})
      && s1.consumers.Keys == s.consumers.Keys
      && forall u | u in s.consumers :: s1.consumers[u] == (s.consumers[u] || (!full && u in woken))
  {
  }

  /** A pass of `deq`: the thread sleeps iff the queue is empty, and otherwise takes its front; then
      producers may be awakened, if the queue is bounded and has room. */
  lemma DeqExactly<T>(s: Queue<T>, t: nat, woken: set<nat>)
    ensures var (s1, r) := Deq(s, t, woken);
      && (r.None? <==> s.q == []) && s1.max == s.max
      && (r.None? ==> s1.q == [] && s1.consumers == s.consumers[t := false] && s1.producers == s.producers)
      && (r.Some? ==> s.q == [r.value] + s1.q && s1.consumers == s.consumers - {t})
      && s1.producers.Keys == s.producers.Keys
      && forall u | u in s.producers :: s1.producers[u].elem == s.producers[u].elem
           && (s1.producers[u].awake <==> s.producers[u].awake || (r.Some? && 0 < s.max && |s.q| <= s.max && u in woken))
  {
  }

  // ---- Refinement of a bounded FIFO ----

  datatype Op<T> =
    | EnqPass(t: nat, e: T, blocking: bool, woken: set<nat>)
    | DeqPass(t: nat, woken: set<nat>)
    | Wake(cs: set<nat>, ps: set<nat>)

  ghost predicate OpEnabled<T>(s: Queue<T>, op: Op<T>) {
    match op
    case EnqPass(t, e, blocking, woken) => MayEnq(s, t, e, blocking) && (HasRoom(s) ==> ConsumerSignal(s, woken))
    case DeqPass(t, woken) => MayDeq(s, t) && (s.q != [] && s.max != 0 ==> ProducerSignal(s, woken))
    case Wake(cs, ps) => true
  }

  function OpStep<T>(s: Queue<T>, op: Op<T>): Queue<T> {
    match op
    case EnqPass(t, e, blocking, woken) => Enq(s, t, e, blocking, woken).0
    case DeqPass(t, woken) => Deq(s, t, woken).0
    case Wake(cs, ps) =>
      s.(consumers := WakeConsumers(s.consumers, cs), producers := WakeProducers(s.producers, ps))
  }

  /** What a step accepts, and what it delivers. */
  function AcceptedBy<T>(s: Queue<T>, op: Op<T>): seq<T> {
    if op.EnqPass? && HasRoom(s) then [op.e] else []
  }

  function DeliveredBy<T>(s: Queue<T>, op: Op<T>): seq<T> {
    if op.DeqPass? && s.q != [] then [s.q[0]] else []
  }

  /** The elements whose `enq` returned true in the first n steps, in order. */
  function Accepted<T>(ss: seq<Queue<T>>, ops: seq<Op<T>>, n: nat): seq<T>
    requires n <= |ops| <= |ss|
  {
    if n == 0 then [] else Accepted(ss, ops, n - 1) + AcceptedBy(ss[n - 1], ops[n - 1])
  }

  /** The elements returned by `deq` in the first n steps, in order. */
  function Delivered<T>(ss: seq<Queue<T>>, ops: seq<Op<T>>, n: nat): seq<T>
    requires n <= |ops| <= |ss|
  {
    if n == 0 then [] else Delivered(ss, ops, n - 1) + DeliveredBy(ss[n - 1], ops[n - 1])
  }

  ghost predicate Run<T>(max: nat, ss: seq<Queue<T>>, ops: seq<Op<T>>) {
    && |ss| == |ops| + 1 && ss[0] == New(max)
    && forall k | 0 <= k < |ops| :: OpEnabled(ss[k], ops[k]) && ss[k + 1] == OpStep(ss[k], ops[k])
  }

  lemma StepKeepsInv<T>(s: Queue<T>, op: Op<T>)
    requires Inv(s) && OpEnabled(s, op)
    ensures Inv(OpStep(s, op)) && OpStep(s, op).max == s.max
  {
    hide Inv;
    match op
    case EnqPass(t, e, blocking, woken) => EnqKeepsInv(s, t, e, blocking, woken);
    case DeqPass(t, woken) => DeqKeepsInv(s, t, woken);
    case Wake(cs, ps) => SpuriousKeepsInv(s, cs, ps);
  }

  lemma StepIsFifo<T>(s: Queue<T>, op: Op<T>)
    ensures DeliveredBy(s, op) + OpStep(s, op).q == s.q + AcceptedBy(s, op)
  {
  }

  lemma NewInv<T>(max: nat)
    ensures Inv<T>(New(max)) && New<T>(max).max == max && New<T>(max).q == []
  {
  }

  lemma Shift<T>(d: seq<T>, x: seq<T>, q': seq<T>, q: seq<T>, y: seq<T>, a: seq<T>)
    requires x + q' == q + y && d + q == a
    ensures (d + x) + q' == a + y
  {
    assert (d + x) + q' == d + (x + q') == d + (q + y) == (d + q) + y;
  }

  /** In every interleaving, with barging and spurious wakeups, the queue is a bounded FIFO: what was
      delivered, followed by what is queued, is what was accepted, in order; and no wakeup is lost. */
  lemma {:induction false} RefinesBoundedFifo<T>(max: nat, ss: seq<Queue<T>>, ops: seq<Op<T>>, n: nat)
    requires Run(max, ss, ops) && n <= |ops|
    ensures Inv(ss[n]) && ss[n].max == max
    ensures Delivered(ss, ops, n) + ss[n].q == Accepted(ss, ops, n)
  {
    hide Inv, OpStep, OpEnabled, New, DeliveredBy, AcceptedBy;
    if n == 0 {
      NewInv<T>(max);
    } else {
      RefinesBoundedFifo(max, ss, ops, n - 1);
      var s, op := ss[n - 1], ops[n - 1];
      StepKeepsInv(s, op);
      StepIsFifo(s, op);
      assert ss[n] == OpStep(s, op);
      Shift(Delivered(ss, ops, n - 1), DeliveredBy(s, op), ss[n].q, s.q, AcceptedBy(s, op), Accepted(ss, ops, n - 1));
    }
  }

  // ---- In place ----

  class BlockingQueue<T(0)> {
    var q: seq<T>
    const max: nat
    var consumers: map<nat, bool>
    var producers: map<nat, Parked<T>>

    ghost function State(): Queue<T>
      reads this
    {
      Queue(q, max, consumers, producers)
    }

    constructor (limit: nat)
      ensures State() == New<T>(limit)
    {
      max := limit;
      q, consumers, producers := [], map[], map[];
    }

    method EnqOnce(t: nat, e: T, blocking: bool, woken: set<nat>) returns (result: Option<bool>)
      modifies this
      ensures (State(), result) == Enq(old(State()), t, e, blocking, woken)
    {
      if max == 0 || |q| < max {
        q := q + [e];
        producers := producers - {t};
        consumers := WakeConsumers(consumers, woken);
        return Some(true);
      }
      if blocking {
        producers := producers[t := Parked(e, false)];
        return None;
      }
      producers := producers - {t};
      return Some(false);
    }

    method DeqOnce(t: nat, woken: set<nat>) returns (result: Option<T>)
      modifies this
      ensures (State(), result) == Deq(old(State()), t, woken)
    {
      if |q| == 0 {
        consumers := consumers[t := false];
        return None;
      }
      result := Some(q[0]);
      q := q[1..];
      consumers := consumers - {t};
      if max != 0 && |q| < max {
        producers := WakeProducers(producers, woken);
      }
    }
  }
}
