/** The thread pool and its poison-pill destructor (rpc/thr_pool.cc:6-67), on top of the blocking
    queue. Workers have ids below n, the destructing thread has id n, outside callers larger ids. */
module ThrPool {
  import opened Fifo
  import opened RpcTypes

  /** A job, or the poison pill, whose function is NULL. */
  datatype Job = Work(f: nat) | Pill

  /** In `takeJob`, running the job that was taken as number `idx`, or exited. */
  datatype Worker = Taking | Busy(idx: nat) | Dead

  datatype Dtor = NotRunning | Pushing(left: nat) | Joined

  datatype Pool = Pool(
    n: nat,
    blocking: bool,
    queue: Queue<Job>,
    workers: seq<Worker>,
    dtor: Dtor,
    accepted: seq<Job>,
    taken: seq<Job>,
    finished: seq<nat>)

  datatype Event =
    | Add(t: nat, f: nat, woken: set<nat>)
    | Take(w: nat, woken: set<nat>)
    | Finish(w: nat)
    | Destroy
    | PushPill(woken: set<nat>)
    | Join
    | Wake(cs: set<nat>, ps: set<nat>)

  ghost predicate Init(p: Pool) {
    && p.n >= 1
    && p == Pool(p.n, p.blocking, New(100 * p.n), seq(p.n, i => Taking), NotRunning, [], [], [])
  }

  /** The destructor runs only when no outside thread uses the pool any more. */
  ghost predicate Enabled(p: Pool, e: Event) {
    match e
    case Add(t, f, woken) =>
      p.dtor.NotRunning? && t > p.n && OpEnabled(p.queue, EnqPass(t, Work(f), p.blocking, woken))
    case Take(w, woken) =>
      w < |p.workers| && p.workers[w].Taking? && OpEnabled(p.queue, DeqPass(w, woken))
    case Finish(w) => w < |p.workers| && p.workers[w].Busy?
    case Destroy => p.dtor.NotRunning? && p.queue.producers == map[]
    case PushPill(woken) =>
      p.dtor.Pushing? && p.dtor.left > 0 && OpEnabled(p.queue, EnqPass(p.n, Pill, true, woken))
    case Join => p.dtor == Pushing(0) && forall w | 0 <= w < |p.workers| :: p.workers[w].Dead?
    case Wake(cs, ps) => true
  }

  function Step(p: Pool, e: Event): Pool
    requires Enabled(p, e)
  {
    match e
    case Add(t, f, woken) =>
      var (q, r) := Enq(p.queue, t, Work(f), p.blocking, woken);
      p.(queue := q, accepted := if r == Some(true) then p.accepted + [Work(f)] else p.accepted)
    case Take(w, woken) =>
      var (q, r) := Deq(p.queue, w, woken);
      if r.None? then p.(queue := q)
      else
        var worker := match r.value case Work(f) => Busy(|p.taken|) case Pill => Dead;
        p.(queue := q, taken := p.taken + [r.value], workers := p.workers[w := worker])
    case Finish(w) =>
      p.(workers := p.workers[w := Taking], finished := p.finished + [p.workers[w].idx])
    case Destroy => p.(dtor := Pushing(p.n))
    case PushPill(woken) =>
      var (q, r) := Enq(p.queue, p.n, Pill, true, woken);
      if r == Some(true) then p.(queue := q, accepted := p.accepted + [Pill], dtor := Pushing(p.dtor.left - 1))
      else p.(queue := q)
    case Join => p.(dtor := Joined)
    case Wake(cs, ps) => p.(queue := OpStep(p.queue, Fifo.Wake(cs, ps)))
  }

  // ---- Invariants ----

  function Pills(js: seq<Job>): nat {
    if js == [] then 0 else Pills(js[..|js| - 1]) + if js[|js| - 1].Pill? then 1 else 0
  }

  ghost function DeadWorkers(workers: seq<Worker>): set<nat> {
    set w | 0 <= w < |workers| && workers[w].Dead?
  }

  ghost predicate JobsThenPills(js: seq<Job>) {
    forall i, j | 0 <= i < j < |js| && js[i].Pill? :: js[j].Pill?
  }

  function Left(p: Pool): nat {
    match p.dtor case NotRunning => p.n case Pushing(left) => left case Joined => 0
  }

  ghost predicate QueueInv(p: Pool) {
    && Fifo.Inv(p.queue) && p.queue.max == 100 * p.n
    && p.taken + p.queue.q == p.accepted
    && (forall t | t in p.queue.consumers :: t < |p.workers| && p.workers[t].Taking?)
    && (p.dtor.NotRunning? ==> forall t | t in p.queue.producers :: t > p.n)
    && (!p.dtor.NotRunning? ==> forall t | t in p.queue.producers :: t == p.n && p.queue.producers[t].elem.Pill? && p.dtor.Pushing? && p.dtor.left > 0)
  }

  ghost predicate PillInv(p: Pool) {
    && p.n >= 1 && |p.workers| == p.n
    && JobsThenPills(p.accepted)
    && Left(p) <= p.n && Pills(p.accepted) == p.n - Left(p)
    && |DeadWorkers(p.workers)| == Pills(p.taken)
    && (p.dtor.NotRunning? ==> forall j | j in p.accepted :: j.Work?)
    && (p.dtor.Joined? ==> forall w | 0 <= w < |p.workers| :: p.workers[w].Dead?)
  }

  ghost predicate IsBusyWith(workers: seq<Worker>, w: nat, idx: nat) {
    w < |workers| && workers[w] == Busy(idx)
  }

  /** Each taken job is in the hands of one worker, or finished once. */
  ghost predicate WorkInv(p: Pool) {
    && NoDup(p.finished)
    && (forall i | i in p.finished :: i < |p.taken| && p.taken[i].Work?)
    && (forall w | 0 <= w < |p.workers| && p.workers[w].Busy? ::
          p.workers[w].idx < |p.taken| && p.taken[p.workers[w].idx].Work? && p.workers[w].idx !in p.finished)
    && (forall v, w | 0 <= v < w < |p.workers| && p.workers[v].Busy? && p.workers[w].Busy? ::
          p.workers[v].idx != p.workers[w].idx)
    && (forall i | 0 <= i < |p.taken| && p.taken[i].Work? ::
          i in p.finished || exists w :: IsBusyWith(p.workers, w, i))
  }

  ghost predicate Inv(p: Pool) {
    QueueInv(p) && PillInv(p) && WorkInv(p)
  }

  // ---- Counting pills ----

  lemma {:induction false} PillsAppend(a: seq<Job>, b: seq<Job>)
    ensures Pills(a + b) == Pills(a) + Pills(b)
  {
    if b == [] {
      assert a + b == a;
    } else {
      assert (a + b)[..|a + b| - 1] == a + b[..|b| - 1];
      PillsAppend(a, b[..|b| - 1]);
    }
  }

  lemma PillsOne(j: Job)
    ensures Pills([j]) == if j.Pill? then 1 else 0
  {
    assert [j][..0] == [];
  }

  lemma {:induction false} PillsNone(js: seq<Job>)
    requires forall j | j in js :: j.Work?
    ensures Pills(js) == 0
  {
    if js != [] {
      assert js[|js| - 1] in js;
      PillsNone(js[..|js| - 1]);
    }
  }

  /** Dead workers, pills in the queue and pills still to come add up to the size of the pool. */
  lemma PillsConserved(p: Pool)
    requires Inv(p)
    ensures |DeadWorkers(p.workers)| + Pills(p.queue.q) + Left(p) == p.n
  {
    PillsAppend(p.taken, p.queue.q);
  }

  // ---- Every event keeps the invariant ----

  lemma DeadGrows(workers: seq<Worker>, w: nat, x: Worker)
    requires w < |workers| && !workers[w].Dead?
    ensures |DeadWorkers(workers[w := x])| == |DeadWorkers(workers)| + if x.Dead? then 1 else 0
  {
    if x.Dead? {
      assert DeadWorkers(workers[w := x]) == DeadWorkers(workers) + {w};
    } else {
      assert DeadWorkers(workers[w := x]) == DeadWorkers(workers);
    }
  }

  lemma TakeKeepsQueue(p: Pool, w: nat, woken: set<nat>)
    requires Inv(p) && Enabled(p, Take(w, woken))
    ensures QueueInv(Step(p, Take(w, woken)))
  {
    hide Fifo.Inv, PillInv, WorkInv;
    StepKeepsInv(p.queue, DeqPass(w, woken));
    var p' := Step(p, Take(w, woken));
    if p.queue.q != [] {
      var j, q := p.queue.q[0], p.queue.q[1..];
      assert p'.taken == p.taken + [j] && p'.queue.q == q;
      assert p.queue.q == [j] + q;
      assert p.taken + [j] + q == p.taken + ([j] + q);
    }
  }

  lemma TakeKeepsPills(p: Pool, w: nat, woken: set<nat>)
    requires Inv(p) && Enabled(p, Take(w, woken))
    ensures PillInv(Step(p, Take(w, woken)))
  {
    hide Fifo.Inv, QueueInv, WorkInv, OpEnabled;
    if p.queue.q != [] {
      var j := p.queue.q[0];
      DeadGrows(p.workers, w, if j.Pill? then Dead else Busy(|p.taken|));
      PillsAppend(p.taken, [j]);
      PillsOne(j);
      assert !p.dtor.Joined?;
      hide Pills, DeadWorkers;
    }
  }

  lemma TakeKeepsWork(p: Pool, w: nat, woken: set<nat>)
    requires Inv(p) && Enabled(p, Take(w, woken))
    ensures WorkInv(Step(p, Take(w, woken)))
  {
    hide Fifo.Inv, QueueInv, PillInv, OpEnabled;
    var p' := Step(p, Take(w, woken));
    forall i | 0 <= i < |p'.taken| && p'.taken[i].Work?
      ensures i in p'.finished || exists v :: IsBusyWith(p'.workers, v, i)
    {
      if i < |p.taken| {
        if i !in p.finished {
          var v :| IsBusyWith(p.workers, v, i);
          assert IsBusyWith(p'.workers, v, i);
        }
      } else {
        assert IsBusyWith(p'.workers, w, i);
      }
    }
  }

  lemma FinishKeeps(p: Pool, w: nat)
    requires Inv(p) && Enabled(p, Finish(w))
    ensures Inv(Step(p, Finish(w)))
  {
    hide Fifo.Inv;
    var p' := Step(p, Finish(w));
    DeadGrows(p.workers, w, Taking);
    var idx := p.workers[w].idx;
    forall i | 0 <= i < |p'.taken| && p'.taken[i].Work?
      ensures i in p'.finished || exists v :: IsBusyWith(p'.workers, v, i)
    {
      if i !in p'.finished {
        var v :| IsBusyWith(p.workers, v, i);
        assert IsBusyWith(p'.workers, v, i);
      }
    }
    hide Pills, DeadWorkers;
  }

  function EnqOp(p: Pool, e: Event): Op<Job>
    requires e.Add? || e.PushPill?
  {
    if e.Add? then EnqPass(e.t, Work(e.f), p.blocking, e.woken) else EnqPass(p.n, Pill, true, e.woken)
  }

  lemma AddShape(p: Pool, e: Event)
    requires Enabled(p, e) && (e.Add? || e.PushPill?)
    ensures var p', op := Step(p, e), EnqOp(p, e);
      && OpEnabled(p.queue, op)
      && p'.queue == OpStep(p.queue, op)
      && p'.workers == p.workers && p'.taken == p.taken && p'.finished == p.finished && p'.n == p.n
      && p'.queue.max == p.queue.max
      && p'.queue.consumers.Keys == p.queue.consumers.Keys
      && (forall t | t in p'.queue.producers :: if t == op.t then p'.queue.producers[t].elem == op.e else t in p.queue.producers)
      && (forall t | t in p'.queue.producers && t != op.t :: p'.queue.producers[t] == p.queue.producers[t])
      && (if HasRoom(p.queue)
          then p'.queue.q == p.queue.q + [op.e] && p'.accepted == p.accepted + [op.e] && op.t !in p'.queue.producers
          else p'.queue.q == p.queue.q && p'.accepted == p.accepted)
      && p'.dtor == if e.PushPill? && HasRoom(p.queue) then Pushing(p.dtor.left - 1) else p.dtor
  {
    hide OpEnabled;
  }

  lemma AddKeepsQueue(p: Pool, e: Event)
    requires Inv(p) && Enabled(p, e) && (e.Add? || e.PushPill?)
    ensures QueueInv(Step(p, e))
  {
    hide Fifo.Inv, PillInv, WorkInv, OpEnabled, Step, OpStep;
    AddShape(p, e);
    var p', op := Step(p, e), EnqOp(p, e);
    StepKeepsInv(p.queue, op);
    if HasRoom(p.queue) {
      assert p.taken + (p.queue.q + [op.e]) == p.taken + p.queue.q + [op.e];
    }
    assert e.Add? ==> p.dtor.NotRunning? && e.t > p.n;
    assert e.PushPill? ==> p.dtor.Pushing? && p.dtor.left > 0;
  }

  lemma AddKeepsPills(p: Pool, e: Event)
    requires Inv(p) && Enabled(p, e) && (e.Add? || e.PushPill?)
    ensures PillInv(Step(p, e))
  {
    hide QueueInv, WorkInv, OpEnabled, Step, Pills, DeadWorkers;
    AddShape(p, e);
    PillsAppend(p.accepted, [EnqOp(p, e).e]);
    PillsOne(EnqOp(p, e).e);
    assert e.Add? ==> p.dtor.NotRunning? && forall j | 0 <= j < |p.accepted| :: p.accepted[j].Work?;
    assert e.PushPill? ==> p.dtor.Pushing? && p.dtor.left > 0;
  }

  lemma AddKeeps(p: Pool, e: Event)
    requires Inv(p) && Enabled(p, e) && (e.Add? || e.PushPill?)
    ensures Inv(Step(p, e))
  {
    AddShape(p, e);
    AddKeepsQueue(p, e);
    AddKeepsPills(p, e);
    hide QueueInv, PillInv, WorkInv, Step, Enabled;
    WorkSame(p, Step(p, e));
  }

  lemma WorkSame(p: Pool, p': Pool)
    requires WorkInv(p) && p'.workers == p.workers && p'.taken == p.taken && p'.finished == p.finished
    ensures WorkInv(p')
  {
  }

  lemma ControlKeeps(p: Pool, e: Event)
    requires Inv(p) && Enabled(p, e) && (e.Destroy? || e.Join? || e.Wake?)
    ensures Inv(Step(p, e))
  {
    hide Fifo.Inv, WorkInv, Pills, DeadWorkers;
    var p' := Step(p, e);
    WorkSame(p, p');
    if e.Wake? {
      StepKeepsInv(p.queue, Fifo.Wake(e.cs, e.ps));
    }
  }

  lemma StepKeepsPool(p: Pool, e: Event)
    requires Inv(p) && Enabled(p, e)
    ensures Inv(Step(p, e))
  {
    hide Step, Enabled, QueueInv, PillInv, WorkInv;
    match e
    case Take(w, woken) =>
      TakeKeepsQueue(p, w, woken);
      TakeKeepsPills(p, w, woken);
      TakeKeepsWork(p, w, woken);
    case Finish(w) => FinishKeeps(p, w);
    case Add(t, f, woken) => AddKeeps(p, e);
    case PushPill(woken) => AddKeeps(p, e);
    case Destroy => ControlKeeps(p, e);
    case Join => ControlKeeps(p, e);
    case Wake(cs, ps) => ControlKeeps(p, e);
  }

  ghost predicate Run(ps: seq<Pool>, es: seq<Event>) {
    && |ps| == |es| + 1 && Init(ps[0])
    && forall k | 0 <= k < |es| :: Enabled(ps[k], es[k]) && ps[k + 1] == Step(ps[k], es[k])
  }

  lemma InitPool(p: Pool)
    requires Init(p)
    ensures Inv(p)
  {
    assert DeadWorkers(p.workers) == {};
  }

  lemma {:induction false} RunInv(ps: seq<Pool>, es: seq<Event>, k: nat)
    requires Run(ps, es) && k < |ps|
    ensures Inv(ps[k])
  {
    hide Inv, Step, Enabled, Init;
    if k == 0 {
      InitPool(ps[0]);
    } else {
      RunInv(ps, es, k - 1);
      StepKeepsPool(ps[k - 1], es[k - 1]);
      assert ps[k] == Step(ps[k - 1], es[k - 1]);
    }
  }

  // ---- Theorems ----

  /** Once every worker is dead the queue is empty: all pills have been taken, and nothing was queued
      behind a pill. */
  lemma AllDeadMeansDrained(p: Pool)
    requires Inv(p) && (forall w | 0 <= w < |p.workers| :: p.workers[w].Dead?)
    ensures p.queue.q == [] && Left(p) == 0
  {
    assert DeadWorkers(p.workers) == Ids(p.n);
    PillsConserved(p);
    assert Pills(p.taken) == p.n && Pills(p.queue.q) == 0;
    if p.queue.q != [] {
      LastIsWork(p.queue.q);
      assert p.queue.q[|p.queue.q| - 1] == p.accepted[|p.accepted| - 1];
      assert forall i | 0 <= i < |p.taken| :: p.accepted[i] == p.taken[i];
      PillsNone(p.taken);
    }
  }

  lemma LastIsWork(js: seq<Job>)
    requires js != [] && Pills(js) == 0
    ensures js[|js| - 1].Work?
  {
  }

  /** The ids of the first n workers. */
  ghost function Ids(n: nat): (r: set<nat>)
    ensures |r| == n && forall w :: w in r <==> 0 <= w < n
  {
    if n == 0 then {} else Ids(n - 1) + {n - 1}
  }

  /** The pool is drained: when the destructor has joined the workers, the queue is empty and every
      job ever accepted has been run to its end exactly once. */
  lemma DrainedAtTheEnd(ps: seq<Pool>, es: seq<Event>, k: nat)
    requires Run(ps, es) && k < |ps| && ps[k].dtor.Joined?
    ensures ps[k].queue.q == [] && ps[k].taken == ps[k].accepted
    ensures NoDup(ps[k].finished)
    ensures forall i :: i in ps[k].finished <==> 0 <= i < |ps[k].accepted| && ps[k].accepted[i].Work?
  {
    var p := ps[k];
    RunInv(ps, es, k);
    AllDeadMeansDrained(p);
    assert p.taken + [] == p.taken;
    assert forall w, i :: !IsBusyWith(p.workers, w, i);
  }

  /** No deadlock: while the destructor runs, some thread of the pool can take a step. */
  lemma DrainNeverStuck(ps: seq<Pool>, es: seq<Event>, k: nat) returns (e: Event)
    requires Run(ps, es) && k < |ps| && ps[k].dtor.Pushing?
    ensures Enabled(ps[k], e) && !e.Wake? && !e.Add?
  {
    RunInv(ps, es, k);
    e := NextStep(ps[k]);
  }

  lemma NextStep(p: Pool) returns (e: Event)
    requires Inv(p) && p.dtor.Pushing?
    ensures Enabled(p, e) && !e.Wake? && !e.Add?
  {
    AllAsleepSignal(p.queue);
    if p.dtor.left > 0 && MayEnq(p.queue, p.n, Pill, true) {
      e := PushPill(AsleepConsumers(p.queue));
    } else if w :| 0 <= w < |p.workers| && p.workers[w].Busy? {
      e := Finish(w);
    } else if w :| 0 <= w < |p.workers| && p.workers[w].Taking? && MayDeq(p.queue, w) {
      e := Take(w, AsleepProducers(p.queue));
    } else {
      NobodyLeft(p);
      e := Join;
    }
  }

  ghost function AsleepConsumers(q: Queue<Job>): set<nat> {
    set t | t in q.consumers && !q.consumers[t]
  }

  ghost function AsleepProducers(q: Queue<Job>): set<nat> {
    set t | t in q.producers && !q.producers[t].awake
  }

  lemma AllAsleepSignal(q: Queue<Job>)
    ensures ConsumerSignal(q, AsleepConsumers(q)) && ProducerSignal(q, AsleepProducers(q))
  {
    assert forall t | t in q.consumers :: q.consumers[t] || t in AsleepConsumers(q);
    assert forall t | t in q.producers :: q.producers[t].awake || t in AsleepProducers(q);
  }

  /** If neither the destructor can push nor any worker can move, all workers are dead. */
  lemma NobodyLeft(p: Pool)
    requires Inv(p) && p.dtor.Pushing?
    requires p.dtor.left == 0 || !MayEnq(p.queue, p.n, Pill, true)
    requires forall w | 0 <= w < |p.workers| :: !p.workers[w].Busy?
    requires forall w | 0 <= w < |p.workers| && p.workers[w].Taking? :: !MayDeq(p.queue, w)
    ensures p.dtor.left == 0
    ensures forall w | 0 <= w < |p.workers| :: p.workers[w].Dead?
  {
    SomeoneIsAwake(p.queue);
    PillsConserved(p);
    forall w | 0 <= w < |p.workers| && p.workers[w].Taking? ensures false {
      assert w in p.queue.consumers;
      assert p.queue.q == [];
      EmptyHasNoPills(p.queue.q);
      LiveMeansPillsLeft(p, w);
    }
    AllDeadMeansDrained(p);
  }

  lemma EmptyHasNoPills(js: seq<Job>)
    requires js == []
    ensures Pills(js) == 0
  {
  }

  lemma LiveMeansPillsLeft(p: Pool, w: nat)
    requires Inv(p) && w < |p.workers| && !p.workers[w].Dead? && Pills(p.queue.q) == 0
    ensures Left(p) > 0
  {
    PillsConserved(p);
    SubsetCard(DeadWorkers(p.workers), Ids(p.n) - {w});
  }

  // ---- In place ----

  /** The destructor's loop over pills, until it is done or must wait for space: what is left to push. */
  function PushPills(q: Queue<Job>, t: nat, left: nat, woken: nat -> set<nat>): (Queue<Job>, nat)
    decreases left
  {
    if left == 0 then (q, 0)
    else
      var (q1, r) := Enq(q, t, Pill, true, woken(left));
      if r.None? then (q1, left) else PushPills(q1, t, left - 1, woken)
  }

  function PillSeq(n: nat): (r: seq<Job>)
    ensures |r| == n && forall i | 0 <= i < n :: r[i] == Pill
  {
    seq(n, i => Pill)
  }

  /** What the loop does: it queues pills behind what is queued, as many as there is room for, and when
      some are left the queue is full and the thread sleeps with the next one. */
  lemma {:induction false} PushPillsExactly(q: Queue<Job>, t: nat, left0: nat, woken: nat -> set<nat>)
    requires q.max != 0 ==> |q.q| <= q.max
    ensures var (q1, left) := PushPills(q, t, left0, woken);
      && left == (if q.max == 0 || |q.q| + left0 <= q.max then 0 else |q.q| + left0 - q.max)
      && q1.q == q.q + PillSeq(left0 - left) && q1.max == q.max
      && (left > 0 ==> |q1.q| == q1.max && q1.producers == q.producers[t := Parked(Pill, false)])
      && (left == 0 && left0 > 0 ==> t !in q1.producers)
    decreases left0
  {
    if left0 > 0 {
      var (q1, r) := Enq(q, t, Pill, true, woken(left0));
      EnqExactly(q, t, Pill, true, woken(left0));
      hide Enq;
      if r.Some? {
        PushPillsExactly(q1, t, left0 - 1, woken);
        var left := PushPills(q1, t, left0 - 1, woken).1;
        assert q.q + [Pill] + PillSeq(left0 - 1 - left) == q.q + PillSeq(left0 - left);
        assert (q.producers - {t})[t := Parked(Pill, false)] == q.producers[t := Parked(Pill, false)];
      } else {
        assert q.q + PillSeq(0) == q.q;
      }
    } else {
      assert q.q + PillSeq(0) == q.q;
    }
  }

  /** The destructor may run its loop: each of its passes is an enabled event of the pool. */
  ghost predicate MayPush(p: Pool, woken: nat -> set<nat>)
    requires p.dtor.Pushing?
    decreases p.dtor.left
  {
    p.dtor.left > 0 ==>
      && Enabled(p, PushPill(woken(p.dtor.left)))
      && (HasRoom(p.queue) ==> PushedOne(p, woken) && MayPush(Step(p, PushPill(woken(p.dtor.left))), woken))
  }

  /** The pass queued its pill. */
  ghost predicate PushedOne(p: Pool, woken: nat -> set<nat>)
    requires p.dtor.Pushing? && p.dtor.left > 0 && Enabled(p, PushPill(woken(p.dtor.left)))
  {
    Step(p, PushPill(woken(p.dtor.left))).dtor == Pushing(p.dtor.left - 1)
  }

  /** The pool after the passes of the loop, as steps of the machine, up to its end or its first wait. */
  ghost function AfterPushes(p: Pool, woken: nat -> set<nat>): Pool
    requires p.dtor.Pushing? && MayPush(p, woken)
    decreases p.dtor.left
  {
    if p.dtor.left == 0 then p
    else if HasRoom(p.queue) then AfterPushes(Step(p, PushPill(woken(p.dtor.left))), woken)
    else Step(p, PushPill(woken(p.dtor.left)))
  }

  /** The loop in place does what the machine's steps do, and counts what is left as the machine does. */
  lemma {:induction false} PushPillsIsSteps(p: Pool, woken: nat -> set<nat>)
    requires p.dtor.Pushing? && MayPush(p, woken)
    ensures var p1 := AfterPushes(p, woken);
      && p1.dtor.Pushing? && (p1.queue, p1.dtor.left) == PushPills(p.queue, p.n, p.dtor.left, woken)
      && p1.workers == p.workers && p1.taken == p.taken && p1.finished == p.finished && p1.n == p.n
      && p1.dtor.left <= p.dtor.left && p1.accepted == p.accepted + PillSeq(p.dtor.left - p1.dtor.left)
    decreases p.dtor.left
  {
    if p.dtor.left == 0 {
      assert p.accepted + PillSeq(0) == p.accepted;
    } else {
      var e := PushPill(woken(p.dtor.left));
      var p1 := Step(p, e);
      if HasRoom(p.queue) {
        PushPillsIsSteps(p1, woken);
        var left := AfterPushes(p1, woken).dtor.left;
        assert p.accepted + [Pill] + PillSeq(p.dtor.left - 1 - left) == p.accepted + PillSeq(p.dtor.left - left);
      } else {
        assert p.accepted + PillSeq(0) == p.accepted;
      }
    }
  }

  class ThreadPool {
    const nthreads: nat
    const blockadd: bool
    const jobq: BlockingQueue<Job>

    constructor (sz: nat, blocking: bool)
      ensures jobq.State() == New<Job>(100 * sz) && nthreads == sz && blockadd == blocking && fresh(jobq)
    {
      nthreads, blockadd := sz, blocking;
      var q := new BlockingQueue<Job>(100 * sz);
      jobq := q;
    }

    method AddJob(t: nat, f: nat, woken: set<nat>) returns (result: Option<bool>)
      modifies jobq
      ensures (jobq.State(), result) == Enq(old(jobq.State()), t, Work(f), blockadd, woken)
      ensures var q0, q1 := old(jobq.State()), jobq.State();
        var full := q0.max != 0 && |q0.q| >= q0.max;
        && q1.q == (if full then q0.q else q0.q + [Work(f)])
        && (result == Some(true) <==> !full) && (result == Some(false) <==> full && !blockadd)
    {
      EnqExactly(jobq.State(), t, Work(f), blockadd, woken);
      result := jobq.EnqOnce(t, Work(f), blockadd, woken);
    }

    /** Some(true) for a job, Some(false) for a pill, None when the worker must wait. */
    method TakeJob(w: nat, woken: set<nat>) returns (job: Option<Job>, alive: Option<bool>)
      modifies jobq
      ensures (jobq.State(), job) == Deq(old(jobq.State()), w, woken)
      ensures var q0, q1 := old(jobq.State()).q, jobq.State().q;
        && (job.None? <==> q0 == []) && (job.Some? ==> q0 == [job.value] + q1)
      ensures alive == if job.None? then None else Some(job.value.Work?)
    {
      DeqExactly(jobq.State(), w, woken);
      job := jobq.DeqOnce(w, woken);
      alive := if job.None? then None else Some(job.value.Work?);
    }

    method PushPillsOnce(left0: nat, woken: nat -> set<nat>) returns (left: nat)
      modifies jobq
      ensures (jobq.State(), left) == PushPills(old(jobq.State()), nthreads, left0, woken)
    {
      left := left0;
      while left > 0
        invariant PushPills(jobq.State(), nthreads, left, woken) == PushPills(old(jobq.State()), nthreads, left0, woken)
      {
        var r := jobq.EnqOnce(nthreads, Pill, true, woken(left));
        if r.None? {
          return;
        }
        left := left - 1;
      }
    }
  }
}
