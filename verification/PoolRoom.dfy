/**
 Producers that wait for room: with one call of `run` at a time none sleeps while there is room; with
 two, one can miss its wake-up for good.
 */
module PoolRoom {
  import opened Basics
  import opened LockFreeQueue
  import opened ThreadPool

  /** The thread is inside `run`. */
  predicate InRun<J>(pc: Pc<J>) {
    !IsWorker(pc) && !pc.Outside?
  }

  /** Each call of `run` begins when no other is in progress. */
  ghost predicate OneAtATime<J>(capacity: nat, workers: set<nat>, actions: seq<ThreadPool.Action<J>>)
    requires capacity > 0
  {
    actions == [] ||
    var before, a := actions[..|actions| - 1], actions[|actions| - 1];
    && OneAtATime(capacity, workers, before)
    && (a.Submit? ==> var p := ThreadPool.Interleave(capacity, workers, before); forall id :: id in p.pcs ==> !InRun(p.pcs[id]))
  }

  /** The slot of the next ticket is free: a `push` would win it. */
  predicate Room<J>(p: Pool<J>)
    requires |p.sys.q.slots| > 0
  {
    p.sys.q.slots[p.sys.q.tail % |p.sys.q.slots|].tail == p.sys.q.tail
  }

  /** Some worker has freed a slot and not finished `dequeuedSignal.set`. */
  ghost predicate Freeing<J>(p: Pool<J>) {
    exists w :: w in p.pcs && (p.pcs[w].DeqSet1? || p.pcs[w].DeqSet2?)
  }

  /** The producer sleeps and the signal is down. */
  predicate Stuck<J>(p: Pool<J>, b: nat)
    requires b in p.pcs
  {
    p.pcs[b].PBlocked? && !p.deq.signaled
  }

  /** The producer will look at the queue again before it can block. */
  predicate Ready<J>(p: Pool<J>, b: nat)
    requires b in p.pcs
  {
    match p.pcs[b]
    case Push2(_) =>
      b in p.sys.ops && p.sys.ops[b].PushCheck?
      ==> p.sys.ops[b].t == p.sys.q.tail || p.deq.state || p.deq.signaled
    case PWaitLoad(_) => p.deq.state || p.deq.signaled
    case PBlocked(_) => p.deq.signaled
    case _ => true
  }

  ghost predicate RoomInv<J>(p: Pool<J>)
    requires |p.sys.q.slots| > 0
  {
    && (forall a, b :: a in p.pcs && b in p.pcs && InRun(p.pcs[a]) && InRun(p.pcs[b]) ==> a == b)
    && (forall b :: b in p.pcs && p.pcs[b].PBlocked? && p.deq.state && !p.deq.signaled ==> exists w :: w in p.pcs && p.pcs[w].DeqSet2?)
    && (forall b :: b in p.pcs && InRun(p.pcs[b]) && Room(p) && !Freeing(p) ==> Ready(p, b))
  }

  /** What a step does to `_dequeuedSignal` and to where its thread stands. */
  lemma DeqStep<J>(p: Pool<J>, tid: nat)
    requires PoolInv(p) && tid in p.pcs
    ensures var p', pc := ThreadPool.Step(p, tid), p.pcs[tid];
            && tid in p'.pcs
            && (InRun(p'.pcs[tid]) ==> InRun(pc))
            && (p.deq.state && !p'.deq.state ==> p'.pcs[tid].PReset2?)
            && (p.deq.signaled && !p'.deq.signaled ==> p'.pcs[tid].PRetry?)
            && (!p.deq.state && p'.deq.state ==> p'.pcs[tid].DeqSet2?)
            && (pc.DeqSet2? ==> p'.deq.signaled)
            && (pc.DeqSet1? ==> p'.deq.state)
            && (p'.pcs[tid].PBlocked? ==> pc.PBlocked? || (!p.deq.state && !p'.deq.state))
  {
    hide Inv, Advance;
    assert Wired(p, tid);
    if InQueue(p.pcs[tid]) {
      CallGoesOn(p.sys, tid);
    }
  }

  /** What a step of a queue operation does to the slot of the next ticket. */
  lemma TailAdvance<J>(s: System<J>, tid: nat)
    requires Inv(s) && tid in s.ops
    ensures var s', n := Advance(s, tid), |s.q.slots|;
            || (s.ops[tid].PopFree? && s'.ops[tid].PopDone?)
            || (s.ops[tid].PushCas? && s'.ops[tid].PushWrite?)
            || (s'.q.tail == s.q.tail && s'.q.slots[s.q.tail % n].tail == s.q.slots[s.q.tail % n].tail)
  {
    assert OpOk(s, s.ops[tid]);
  }

  ghost predicate TailCases<J>(p: Pool<J>, p': Pool<J>, tid: nat)
    requires tid in p'.pcs && |p'.sys.q.slots| == |p.sys.q.slots| > 0
  {
    || p'.pcs[tid].DeqSet1?
    || (InRun(p'.pcs[tid]) && Ready(p', tid))
    || (p'.sys.q.tail == p.sys.q.tail && Room(p') == Room(p))
  }

  lemma QueueTail<J>(p: Pool<J>, tid: nat)
    requires PoolInv(p) && tid in p.pcs && InQueue(p.pcs[tid])
    ensures var p' := QueueStep(p, tid);
            p' == ThreadPool.Step(p, tid) && tid in p'.pcs && |p'.sys.q.slots| == |p.sys.q.slots| && TailCases(p, p', tid)
  {
    hide Inv, Advance;
    assert Wired(p, tid);
    TailAdvance(p.sys, tid);
    CallGoesOn(p.sys, tid);
  }

  lemma TailStep<J>(p: Pool<J>, tid: nat)
    requires PoolInv(p) && tid in p.pcs
    ensures var p' := ThreadPool.Step(p, tid); tid in p'.pcs && |p'.sys.q.slots| == |p.sys.q.slots| && TailCases(p, p', tid)
  {
    hide Inv, Advance;
    if InQueue(p.pcs[tid]) {
      QueueTail(p, tid);
    } else {
      assert ThreadPool.Step(p, tid).sys.q == p.sys.q;
    }
  }

  /** The producer's own step keeps it ready as long as there is room. */
  lemma ReadySelf<J>(p: Pool<J>, b: nat)
    requires PoolInv(p) && b in p.pcs && InRun(p.pcs[b]) && Ready(p, b) && Room(p)
    requires ThreadPool.Step(p, b).sys.q.tail == p.sys.q.tail
    ensures b in ThreadPool.Step(p, b).pcs && Ready(ThreadPool.Step(p, b), b)
  {
    hide Inv, Advance;
    assert Wired(p, b);
    if InQueue(p.pcs[b]) {
      QueueReady(p, b);
    }
  }

  lemma QueueReady<J>(p: Pool<J>, b: nat)
    requires PoolInv(p) && b in p.pcs && InRun(p.pcs[b]) && InQueue(p.pcs[b]) && Ready(p, b) && Room(p)
    requires QueueStep(p, b).sys.q.tail == p.sys.q.tail
    ensures ThreadPool.Step(p, b) == QueueStep(p, b) && b in QueueStep(p, b).pcs && Ready(QueueStep(p, b), b)
  {
    assert Wired(p, b);
    CallGoesOn(p.sys, b);
    assert OpOk(p.sys, p.sys.ops[b]);
  }

  lemma FlagKept<J>(p: Pool<J>, tid: nat, b: nat)
    requires PoolInv(p) && RoomInv(p) && tid in p.pcs
    ensures var p' := ThreadPool.Step(p, tid);
            b in p'.pcs && p'.pcs[b].PBlocked? && p'.deq.state && !p'.deq.signaled ==> exists w :: w in p'.pcs && p'.pcs[w].DeqSet2?
  {
    hide ThreadPool.Step, Inv, Wired;
    var p' := ThreadPool.Step(p, tid);
    DeqStep(p, tid);
    StepOthers(p, tid);
    if b in p'.pcs && p'.pcs[b].PBlocked? && p'.deq.state && !p'.deq.signaled && !p'.pcs[tid].DeqSet2? {
      assert p.deq.state;
      assert b != tid ==> !InRun(p.pcs[tid]);
      var w :| w in p.pcs && p.pcs[w].DeqSet2?;
      assert w != tid;
      assert p'.pcs[w].DeqSet2?;
    }
  }

  lemma RoomKept<J>(p: Pool<J>, tid: nat, b: nat)
    requires PoolInv(p) && RoomInv(p) && tid in p.pcs
    ensures var p' := ThreadPool.Step(p, tid);
            |p'.sys.q.slots| > 0 && (b in p'.pcs && InRun(p'.pcs[b]) && Room(p') && !Freeing(p') ==> Ready(p', b))
  {
    hide ThreadPool.Step, Inv, Wired;
    var p' := ThreadPool.Step(p, tid);
    TailStep(p, tid);
    DeqStep(p, tid);
    StepOthers(p, tid);
    if b in p'.pcs && InRun(p'.pcs[b]) && Room(p') && !Freeing(p') {
      assert !p'.pcs[tid].DeqSet1? && !p'.pcs[tid].DeqSet2?;
      assert b != tid ==> !InRun(p.pcs[tid]);
      if p'.sys.q.tail == p.sys.q.tail && Room(p') == Room(p) {
        RoomStays(p, tid, b);
      }
    }
  }

  lemma RoomStays<J>(p: Pool<J>, tid: nat, b: nat)
    requires PoolInv(p) && RoomInv(p) && tid in p.pcs && b in p.pcs && Room(p)
    requires var p' := ThreadPool.Step(p, tid);
             && p'.sys.q.tail == p.sys.q.tail && b in p'.pcs && InRun(p'.pcs[b]) && !Freeing(p')
    requires b != tid ==> !InRun(p.pcs[tid])
    ensures var p' := ThreadPool.Step(p, tid); b in p'.pcs && Ready(p', b)
  {
    hide ThreadPool.Step, Inv, Wired;
    var p' := ThreadPool.Step(p, tid);
    DeqStep(p, tid);
    StepOthers(p, tid);
    StepQueue(p, tid);
    FlagKept(p, tid, b);
    if Freeing(p) {
      var w :| w in p.pcs && (p.pcs[w].DeqSet1? || p.pcs[w].DeqSet2?);
      assert w == tid && (p'.deq.state || p'.deq.signaled);
    } else if b == tid {
      ReadySelf(p, b);
    } else {
      assert Ready(p, b);
    }
  }

  lemma ActRoom<J>(p: Pool<J>, a: ThreadPool.Action<J>)
    requires PoolInv(p) && RoomInv(p)
    requires a.Submit? ==> forall id :: id in p.pcs ==> !InRun(p.pcs[id])
    ensures |Act(p, a).sys.q.slots| > 0 && RoomInv(Act(p, a))
  {
    hide ThreadPool.Step, Inv, Room, Ready;
    if a.Run? && a.tid in p.pcs {
      hide RoomInv;
      var p' := ThreadPool.Step(p, a.tid);
      forall b ensures b in p'.pcs && p'.pcs[b].PBlocked? && p'.deq.state && !p'.deq.signaled ==> exists w :: w in p'.pcs && p'.pcs[w].DeqSet2? {
        FlagKept(p, a.tid, b);
      }
      forall b ensures |p'.sys.q.slots| > 0 && (b in p'.pcs && InRun(p'.pcs[b]) && Room(p') && !Freeing(p') ==> Ready(p', b)) {
        RoomKept(p, a.tid, b);
      }
      StillOne(p, a.tid);
      RoomWhole(p');
    } else if a.Submit? {
      SubmitRoom(p, a.tid, a.job);
    }
  }

  lemma StillOne<J>(p: Pool<J>, tid: nat)
    requires PoolInv(p) && RoomInv(p) && tid in p.pcs
    ensures var p' := ThreadPool.Step(p, tid);
            forall a, b :: a in p'.pcs && b in p'.pcs && InRun(p'.pcs[a]) && InRun(p'.pcs[b]) ==> a == b
  {
    hide ThreadPool.Step, Inv, Wired;
    DeqStep(p, tid);
    StepOthers(p, tid);
  }

  lemma RoomWhole<J>(p: Pool<J>)
    requires |p.sys.q.slots| > 0
    requires forall a, b :: a in p.pcs && b in p.pcs && InRun(p.pcs[a]) && InRun(p.pcs[b]) ==> a == b
    requires forall b :: b in p.pcs && p.pcs[b].PBlocked? && p.deq.state && !p.deq.signaled ==> exists w :: w in p.pcs && p.pcs[w].DeqSet2?
    requires forall b :: b in p.pcs && InRun(p.pcs[b]) && Room(p) && !Freeing(p) ==> Ready(p, b)
    ensures RoomInv(p)
  {
  }

  lemma SubmitRoom<J>(p: Pool<J>, tid: nat, job: J)
    requires PoolInv(p) && RoomInv(p) && forall id :: id in p.pcs ==> !InRun(p.pcs[id])
    ensures RoomInv(Act(p, Submit(tid, job)))
  {
    hide Inv, Room;
    var p' := Act(p, Submit(tid, job));
    if p' != p {
      forall b | b in p'.pcs && InRun(p'.pcs[b]) ensures b == tid && Ready(p', b) {}
    }
  }

  lemma {:induction false} EveryTurn<J>(capacity: nat, workers: set<nat>, actions: seq<ThreadPool.Action<J>>)
    requires capacity > 0 && OneAtATime(capacity, workers, actions)
    ensures PoolInv(ThreadPool.Interleave(capacity, workers, actions)) && RoomInv(ThreadPool.Interleave(capacity, workers, actions))
  {
    hide RoomInv, PoolInv;
    if actions == [] {
      ConstructedPool<J>(capacity, workers);
      RoomWhole(ThreadPool.Constructed<J>(capacity, workers));
    } else {
      var before, a := actions[..|actions| - 1], actions[|actions| - 1];
      EveryTurn(capacity, workers, before);
      ActPool(ThreadPool.Interleave(capacity, workers, before), a);
      ActRoom(ThreadPool.Interleave(capacity, workers, before), a);
    }
  }

  /**
   With one call of `run` at a time, no producer is blocked while the slot of the next ticket is free
   and no worker is between freeing a slot and finishing `set`.
   */
  lemma NoProducerSleepsOnRoom<J>(capacity: nat, workers: set<nat>, actions: seq<ThreadPool.Action<J>>)
    requires capacity > 0 && OneAtATime(capacity, workers, actions)
    ensures var p := ThreadPool.Interleave(capacity, workers, actions);
            Room(p) && !Freeing(p) ==> forall b :: b in p.pcs ==> !Stuck(p, b)
  {
    EveryTurn(capacity, workers, actions);
    var p := ThreadPool.Interleave(capacity, workers, actions);
    if Room(p) && !Freeing(p) {
      forall b | b in p.pcs && p.pcs[b].PBlocked? ensures p.deq.signaled { assert Ready(p, b); }
    }
  }

  /** So whoever sleeps finds the queue full, or a `pop` that has won a ticket is under way. */
  lemma NoProducerSleepsOnQueue<J>(capacity: nat, workers: set<nat>, actions: seq<ThreadPool.Action<J>>)
    requires capacity > 0 && OneAtATime(capacity, workers, actions)
    ensures var p := ThreadPool.Interleave(capacity, workers, actions);
            p.sys.q.tail < p.sys.q.head + capacity && !Freeing(p)
            && (forall id :: id in p.sys.ops ==> !p.sys.ops[id].PopRead? && !p.sys.ops[id].PopDestroy? && !p.sys.ops[id].PopFree?)
            ==> forall b :: b in p.pcs ==> !Stuck(p, b)
  {
    EveryTurn(capacity, workers, actions);
    NoProducerSleepsOnRoom(capacity, workers, actions);
    var s := ThreadPool.Interleave(capacity, workers, actions).sys;
    if s.q.tail < s.q.head + capacity
       && forall id :: id in s.ops ==> !s.ops[id].PopRead? && !s.ops[id].PopDestroy? && !s.ops[id].PopFree? {
      TailSlot(s);
    }
  }

  /** While the queue is not full and no `pop` holds a ticket, the slot of the next ticket is free. */
  lemma TailSlot<J>(s: System<J>)
    requires Inv(s) && s.q.tail < s.q.head + |s.q.slots|
    requires forall id :: id in s.ops ==> !s.ops[id].PopRead? && !s.ops[id].PopDestroy? && !s.ops[id].PopFree?
    ensures s.q.slots[s.q.tail % |s.q.slots|].tail == s.q.tail
  {
    var n := |s.q.slots|;
    var i := s.q.tail % n;
    var k := s.q.slots[i].tail;
    SlotFacts(s, i);
    SameRemainder(k, s.q.tail, n);
  }

  lemma SlotFacts<J>(s: System<J>, i: nat)
    requires Inv(s) && i < |s.q.slots|
    requires forall id :: id in s.ops ==> !s.ops[id].PopRead? && !s.ops[id].PopDestroy? && !s.ops[id].PopFree?
    ensures var k := s.q.slots[i].tail;
            k % |s.q.slots| == i && s.q.head <= k < s.q.head + |s.q.slots| && s.q.tail <= k + |s.q.slots|
  {
    assert StampsOk(s, i) && HasOwner(s, i);
    var k := s.q.slots[i].tail;
    if id :| id in s.ops && Owned(s.ops[id]) == Some(k) { assert OpOk(s, s.ops[id]); }
  }

  // ---- two calls at a time: a wake-up is missed ----

  /** The part of a state that decides what happens next. */
  datatype Shot<J> = Shot(q: Queue<J>, ops: map<nat, Op<J>>, pcs: map<nat, Pc<J>>, enq: FastSignal, deq: FastSignal)

  function ShotOf<J>(p: Pool<J>): Shot<J> {
    Shot(p.sys.q, p.sys.ops, p.pcs, p.enq, p.deq)
  }

  /** The thread is about to call `pop` or `push`. */
  predicate Calls<J>(pc: Pc<J>) {
    pc.Loop? || pc.Retry? || pc.PLoop? || pc.PRetry?
  }

  function Called<J>(pc: Pc<J>): Pc<J>
    requires Calls(pc)
  {
    match pc
    case Loop => Pop1
    case Retry => Pop2
    case PLoop(j) => Push1(j)
    case PRetry(j) => Push2(j)
  }

  lemma CallShot<J>(p: Pool<J>, tid: nat)
    requires |p.sys.q.slots| > 0 && tid in p.pcs && Idle(p.sys, tid)
    requires Calls(p.pcs[tid])
    ensures var s, pc := ShotOf(p), p.pcs[tid];
            ShotOf(Go(p, tid)) == s.(ops := s.ops[tid := if IsWorker(pc) then PopStart else PushStart(pc.job)],
                                     pcs := s.pcs[tid := Called(pc)])
  {
  }

  lemma QueueShot<J>(p: Pool<J>, tid: nat)
    requires |p.sys.q.slots| > 0 && tid in p.pcs && InQueue(p.pcs[tid]) && tid in p.sys.ops
    ensures var s, r := ShotOf(p), LockFreeQueue.Step(p.sys.q, p.sys.ops[tid]);
            ShotOf(Go(p, tid)) == s.(q := r.0, ops := s.ops[tid := r.1], pcs := s.pcs[tid := AfterOp(s.pcs[tid], r.1)])
  {
    hide LockFreeQueue.Step, AfterOp;
  }

  /** A step on the signals: where the thread stands afterwards, and the two signals. */
  function Signalled<J>(pc: Pc<J>, enq: FastSignal, deq: FastSignal): (Pc<J>, FastSignal, FastSignal) {
    match pc
    case Reset1 => if enq.state then (Reset2, enq.(state := false), deq) else (Retry, enq, deq)
    case Reset2 => (Retry, enq.(signaled := false), deq)
    case WaitLoad => (if enq.state then Loop else Blocked, enq, deq)
    case DeqSet1(h, j) => if deq.state then (Running(h, j), enq, deq) else (DeqSet2(h, j), enq, deq.(state := true))
    case DeqSet2(h, j) => (Running(h, j), enq, deq.(signaled := true))
    case Running(_, _) => (Loop, enq, deq)
    case PReset1(j) => if deq.state then (PReset2(j), enq, deq.(state := false)) else (PRetry(j), enq, deq)
    case PReset2(j) => (PRetry(j), enq, deq.(signaled := false))
    case PWaitLoad(j) => (if deq.state then PLoop(j) else PBlocked(j), enq, deq)
    case EnqSet1 => if enq.state then (Outside, enq, deq) else (EnqSet2, enq.(state := true), deq)
    case EnqSet2 => (Outside, enq.(signaled := true), deq)
    case _ => (pc, enq, deq)
  }

  predicate Signals<J>(pc: Pc<J>) {
    !Calls(pc) && !InQueue(pc) && !pc.Blocked? && !pc.PBlocked?
  }

  lemma SignalStepped<J>(p: Pool<J>, tid: nat)
    requires |p.sys.q.slots| > 0 && tid in p.pcs && Signals(p.pcs[tid])
    ensures |Steps(p, tid, 1).sys.q.slots| > 0
    ensures var s := ShotOf(p);
            var r := Signalled(s.pcs[tid], s.enq, s.deq);
            ShotOf(Steps(p, tid, 1)) == s.(pcs := s.pcs[tid := r.0], enq := r.1, deq := r.2)
  {
    hide QueueStep;
    OneStep(p, tid);
  }

  lemma {:induction false} StepsAdd<J>(p: Pool<J>, tid: nat, a: nat, b: nat)
    requires |p.sys.q.slots| > 0
    ensures |Steps(p, tid, a).sys.q.slots| > 0 && Steps(Steps(p, tid, a), tid, b) == Steps(p, tid, a + b)
    decreases a
  {
    hide Act, Go;
    ActKeepsRing(p, ThreadPool.Action.Run(tid));
    Walk(p, tid, 0);
    if a > 0 {
      Walk(p, tid, a - 1);
      Walk(p, tid, a + b - 1);
      StepsAdd(Go(p, tid), tid, a - 1, b);
    }
  }

  lemma OneStep<J>(p: Pool<J>, tid: nat)
    requires |p.sys.q.slots| > 0
    ensures Steps(p, tid, 1) == Go(p, tid) && |Go(p, tid).sys.q.slots| > 0
  {
    hide Act, Go;
    Walk(p, tid, 0);
    Walk(Go(p, tid), tid, 0);
  }

  /** One step of a queue operation, from a state of which `s` is the shot. */
  lemma QueueStepped<J>(p: Pool<J>, tid: nat, s: Shot<J>, r: (Queue<J>, Op<J>))
    requires |p.sys.q.slots| > 0 && ShotOf(p) == s && tid in s.pcs && InQueue(s.pcs[tid])
    requires tid in s.ops && |s.q.slots| > 0 && LockFreeQueue.Step(s.q, s.ops[tid]) == r
    ensures |Steps(p, tid, 1).sys.q.slots| > 0
    ensures ShotOf(Steps(p, tid, 1)) == s.(q := r.0, ops := s.ops[tid := r.1], pcs := s.pcs[tid := AfterOp(s.pcs[tid], r.1)])
  {
    hide LockFreeQueue.Step, AfterOp, Steps, Go, Act;
    QueueShot(p, tid);
    OneStep(p, tid);
  }

  /** A thread in a queue operation, with everything else as in `s`. */
  function Inside<J>(s: Shot<J>, tid: nat, q: Queue<J>, op: Op<J>, pc: Pc<J>): Shot<J> {
    s.(q := q, ops := s.ops[tid := op], pcs := s.pcs[tid := pc])
  }

  lemma InsideStepped<J>(p: Pool<J>, tid: nat, s: Shot<J>, q: Queue<J>, op: Op<J>, pc: Pc<J>, q': Queue<J>, op': Op<J>)
    requires |p.sys.q.slots| > 0 && ShotOf(p) == Inside(s, tid, q, op, pc) && InQueue(pc)
    requires |q.slots| > 0 && LockFreeQueue.Step(q, op) == (q', op')
    ensures |Steps(p, tid, 1).sys.q.slots| > 0
    ensures ShotOf(Steps(p, tid, 1)) == Inside(s, tid, q', op', AfterOp(pc, op'))
  {
    hide LockFreeQueue.Step, AfterOp, Steps, ShotOf;
    QueueStepped(p, tid, Inside(s, tid, q, op, pc), (q', op'));
    var z := Inside(s, tid, q, op, pc);
    assert z.ops[tid := op'] == s.ops[tid := op'];
    assert z.pcs[tid := AfterOp(pc, op')] == s.pcs[tid := AfterOp(pc, op')];
  }

  lemma CallStepped<J>(p: Pool<J>, tid: nat)
    requires |p.sys.q.slots| > 0 && tid in p.pcs && Idle(p.sys, tid)
    requires Calls(p.pcs[tid])
    ensures |Steps(p, tid, 1).sys.q.slots| > 0
    ensures var s, pc := ShotOf(p), p.pcs[tid];
            ShotOf(Steps(p, tid, 1)) == Inside(s, tid, s.q, if IsWorker(pc) then PopStart else PushStart(pc.job), Called(pc))
  {
    hide Steps, Go, Act;
    CallShot(p, tid);
    OneStep(p, tid);
  }

  lemma InsideSignalled<J>(p: Pool<J>, tid: nat, s: Shot<J>, q: Queue<J>, op: Op<J>, pc: Pc<J>,
                           pc': Pc<J>, enq: FastSignal, deq: FastSignal)
    requires |p.sys.q.slots| > 0 && ShotOf(p) == Inside(s, tid, q, op, pc) && Signals(pc)
    requires Signalled(pc, s.enq, s.deq) == (pc', enq, deq)
    ensures |Steps(p, tid, 1).sys.q.slots| > 0
    ensures ShotOf(Steps(p, tid, 1)) == Inside(s.(enq := enq, deq := deq), tid, q, op, pc')
  {
    hide Signalled, Steps, Signals;
    SignalStepped(p, tid);
    var z := Inside(s, tid, q, op, pc);
    assert z.pcs[tid := pc'] == s.pcs[tid := pc'];
  }

  lemma InsideCalled<J>(p: Pool<J>, tid: nat, s: Shot<J>, q: Queue<J>, op: Op<J>, pc: Pc<J>)
    requires |p.sys.q.slots| > 0 && ShotOf(p) == Inside(s, tid, q, op, pc) && Calls(pc)
    requires op.PushDone? || op.PushFail? || op.PopDone? || op.PopFail?
    ensures |Steps(p, tid, 1).sys.q.slots| > 0
    ensures ShotOf(Steps(p, tid, 1)) == Inside(s, tid, q, if IsWorker(pc) then PopStart else PushStart(pc.job), Called(pc))
  {
    hide Steps, Called;
    CallStepped(p, tid);
    var z := Inside(s, tid, q, op, pc);
    var start := if IsWorker(pc) then PopStart else PushStart(pc.job);
    assert z.pcs[tid := Called(pc)] == s.pcs[tid := Called(pc)] && z.ops[tid := start] == s.ops[tid := start];
  }

  /** A `push` or `pop` that finds its slot not ready. */
  lemma InsideRefused<J>(p: Pool<J>, tid: nat, s: Shot<J>, q: Queue<J>, pc: Pc<J>)
    requires |p.sys.q.slots| > 0 && |q.slots| == 1 && InQueue(pc)
    requires ShotOf(p) == Inside(s, tid, q, if pc.Pop1? || pc.Pop2? then PopStart else PushStart(pc.job), pc)
    requires if pc.Pop1? || pc.Pop2? then q.slots[0].head != q.head else q.slots[0].tail != q.tail
    ensures |Steps(p, tid, 2).sys.q.slots| > 0
    ensures var op := if pc.Pop1? || pc.Pop2? then PopFail else PushFail;
            ShotOf(Steps(p, tid, 2)) == Inside(s, tid, q, op, AfterOp(pc, op))
  {
    hide Steps, Inside;
    StepsAdd(p, tid, 1, 1);
    if pc.Pop1? || pc.Pop2? {
      InsideStepped(p, tid, s, q, PopStart, pc, q, PopCheck(q.head));
      InsideStepped(Steps(p, tid, 1), tid, s, q, PopCheck(q.head), pc, q, PopFail);
    } else {
      InsideStepped(p, tid, s, q, PushStart(pc.job), pc, q, PushCheck(pc.job, q.tail));
      InsideStepped(Steps(p, tid, 1), tid, s, q, PushCheck(pc.job, q.tail), pc, q, PushFail);
    }
  }

  lemma FourSteps<J>(p: Pool<J>, tid: nat)
    requires |p.sys.q.slots| > 0
    ensures |Steps(p, tid, 1).sys.q.slots| > 0 && |Steps(p, tid, 2).sys.q.slots| > 0 && |Steps(p, tid, 3).sys.q.slots| > 0
    ensures Steps(p, tid, 2) == Steps(Steps(p, tid, 1), tid, 1)
    ensures Steps(p, tid, 3) == Steps(Steps(p, tid, 2), tid, 1)
    ensures Steps(p, tid, 4) == Steps(Steps(p, tid, 3), tid, 1)
  {
    hide Steps;
    StepsAdd(p, tid, 1, 1);
    StepsAdd(p, tid, 2, 1);
    StepsAdd(p, tid, 3, 1);
  }

  /** The call and the three steps of a `push` that wins the ticket. */
  lemma TicketShots<J>(p: Pool<J>, tid: nat, j: J)
    requires tid in p.pcs && Idle(p.sys, tid) && (p.pcs[tid] == PLoop(j) || p.pcs[tid] == PRetry(j))
    requires |p.sys.q.slots| == 1 && p.sys.q.slots[0].tail == p.sys.q.tail
    ensures var s := ShotOf(p);
            ShotOf(Steps(p, tid, 4)) == Inside(s, tid, s.q.(tail := s.q.tail + 1), PushWrite(j, s.q.tail), Called(p.pcs[tid]))
  {
    hide Steps, Inside;
    var s, pc, t := ShotOf(p), Called(p.pcs[tid]), p.sys.q.tail;
    FourSteps(p, tid);
    CallStepped(p, tid);
    InsideStepped(Steps(p, tid, 1), tid, s, s.q, PushStart(j), pc, s.q, PushCheck(j, t));
    InsideStepped(Steps(p, tid, 2), tid, s, s.q, PushCheck(j, t), pc, s.q, PushCas(j, t));
    InsideStepped(Steps(p, tid, 3), tid, s, s.q, PushCas(j, t), pc, s.q.(tail := t + 1), PushWrite(j, t));
  }

  /** A whole `push` into a ring of one slot, up to the `set` behind it. */
  lemma PushShots<J>(p: Pool<J>, tid: nat, j: J)
    requires tid in p.pcs && Idle(p.sys, tid) && (p.pcs[tid] == PLoop(j) || p.pcs[tid] == PRetry(j))
    requires |p.sys.q.slots| == 1 && p.sys.q.slots[0].tail == p.sys.q.tail && p.sys.q.slots[0].data == None
    ensures |Steps(p, tid, 6).sys.q.slots| > 0
    ensures var s, t := ShotOf(p), p.sys.q.tail;
            ShotOf(Steps(p, tid, 6)) == Inside(s, tid, Queue([Slot(Some(j), t, t)], t + 1, s.q.head), PushDone(t), EnqSet1)
  {
    hide Steps, Inside;
    var s, pc, t := ShotOf(p), Called(p.pcs[tid]), p.sys.q.tail;
    var q := s.q.(tail := t + 1);
    var q' := q.(slots := [Slot(Some(j), t, s.q.slots[0].head)]);
    FourSteps(p, tid);
    TicketShots(p, tid, j);
    StepsAdd(p, tid, 4, 1);
    StepsAdd(p, tid, 5, 1);
    ShotRing(Steps(p, tid, 4), s, tid, q, PushWrite(j, t), pc);
    assert q.slots[0 := q.slots[0].(data := Some(j))] == q'.slots;
    InsideStepped(Steps(p, tid, 4), tid, s, q, PushWrite(j, t), pc, q', PushPublish(j, t));
    assert q'.slots[0 := q'.slots[0].(head := t)] == [Slot(Some(j), t, t)];
    InsideStepped(Steps(p, tid, 5), tid, s, q', PushPublish(j, t), pc, Queue([Slot(Some(j), t, t)], t + 1, s.q.head), PushDone(t));
    ShotRing(Steps(p, tid, 6), s, tid, Queue([Slot(Some(j), t, t)], t + 1, s.q.head), PushDone(t), EnqSet1);
  }

  lemma ShotRing<J>(p: Pool<J>, s: Shot<J>, tid: nat, q: Queue<J>, op: Op<J>, pc: Pc<J>)
    requires ShotOf(p) == Inside(s, tid, q, op, pc)
    ensures p.sys.q == q
  {
  }

  /** The call and the two steps of a refused `push` or `pop`. */
  lemma RefusedShots<J>(p: Pool<J>, tid: nat)
    requires tid in p.pcs && Idle(p.sys, tid) && Calls(p.pcs[tid]) && |p.sys.q.slots| == 1
    requires if IsWorker(p.pcs[tid]) then p.sys.q.slots[0].head != p.sys.q.head else p.sys.q.slots[0].tail != p.sys.q.tail
    ensures |Steps(p, tid, 3).sys.q.slots| > 0
    ensures var s, pc, op := ShotOf(p), Called(p.pcs[tid]), if IsWorker(p.pcs[tid]) then PopFail else PushFail;
            ShotOf(Steps(p, tid, 3)) == Inside(s, tid, s.q, op, AfterOp(pc, op))
  {
    hide Steps, Inside;
    CallStepped(p, tid);
    StepsAdd(p, tid, 1, 2);
    InsideRefused(Steps(p, tid, 1), tid, ShotOf(p), p.sys.q, Called(p.pcs[tid]));
  }

  lemma FrontShots<J>(p: Pool<J>, tid: nat)
    requires tid in p.pcs && Idle(p.sys, tid) && p.pcs[tid].Loop?
    requires |p.sys.q.slots| == 1 && p.sys.q.slots[0].head == p.sys.q.head
    ensures |Steps(p, tid, 4).sys.q.slots| > 0
    ensures var s := ShotOf(p);
            ShotOf(Steps(p, tid, 4)) == Inside(s, tid, s.q.(head := s.q.head + 1), PopRead(s.q.head), Pop1)
  {
    hide Steps, Inside;
    var s, h := ShotOf(p), p.sys.q.head;
    FourSteps(p, tid);
    CallStepped(p, tid);
    InsideStepped(Steps(p, tid, 1), tid, s, s.q, PopStart, Pop1, s.q, PopCheck(h));
    InsideStepped(Steps(p, tid, 2), tid, s, s.q, PopCheck(h), Pop1, s.q, PopCas(h));
    InsideStepped(Steps(p, tid, 3), tid, s, s.q, PopCas(h), Pop1, s.q.(head := h + 1), PopRead(h));
    ShotRing(Steps(p, tid, 4), s, tid, s.q.(head := h + 1), PopRead(h), Pop1);
  }

  /** A whole `pop` from a ring of one slot, up to the `set` behind it. */
  lemma PopShots<J>(p: Pool<J>, tid: nat, j: J)
    requires tid in p.pcs && Idle(p.sys, tid) && p.pcs[tid].Loop?
    requires p.sys.q.slots == [Slot(Some(j), p.sys.q.head, p.sys.q.head)]
    ensures |Steps(p, tid, 7).sys.q.slots| > 0
    ensures var s, h := ShotOf(p), p.sys.q.head;
            ShotOf(Steps(p, tid, 7)) == Inside(s, tid, Queue([Slot(None, h + 1, h)], s.q.tail, h + 1), PopDone(h, j), DeqSet1(h, j))
  {
    hide Steps, Inside;
    var s, h := ShotOf(p), p.sys.q.head;
    FrontShots(p, tid);
    StepsAdd(p, tid, 4, 3);
    StorageShots(Steps(p, tid, 4), s, tid, h, j);
    ShotRing(Steps(p, tid, 7), s, tid, Queue([Slot(None, h + 1, h)], s.q.tail, h + 1), PopDone(h, j), DeqSet1(h, j));
  }

  lemma StorageShots<J>(p: Pool<J>, s: Shot<J>, tid: nat, h: nat, j: J)
    requires s.q.slots == [Slot(Some(j), h, h)] && |p.sys.q.slots| > 0
    requires ShotOf(p) == Inside(s, tid, s.q.(head := h + 1), PopRead(h), Pop1)
    ensures ShotOf(Steps(p, tid, 3)) == Inside(s, tid, Queue([Slot(None, h + 1, h)], s.q.tail, h + 1), PopDone(h, j), DeqSet1(h, j))
  {
    hide Steps, Inside, LockFreeQueue.Step;
    var q := s.q.(head := h + 1);
    var q' := q.(slots := [Slot(None, h, h)]);
    var q'' := q.(slots := [Slot(None, h + 1, h)]);
    FourSteps(p, tid);
    StorageSteps(s.q.tail, h, j);
    InsideStepped(p, tid, s, q, PopRead(h), Pop1, q, PopDestroy(h, j));
    InsideStepped(Steps(p, tid, 1), tid, s, q, PopDestroy(h, j), Pop1, q', PopFree(h, j));
    InsideStepped(Steps(p, tid, 2), tid, s, q', PopFree(h, j), Pop1, q'', PopDone(h, j));
  }

  lemma StorageSteps<J>(tail: nat, h: nat, j: J)
    ensures var q, q' := Queue([Slot(Some(j), h, h)], tail, h + 1), Queue([Slot(None, h, h)], tail, h + 1);
            && LockFreeQueue.Step(q, PopRead(h)) == (q, PopDestroy(h, j))
            && LockFreeQueue.Step(q, PopDestroy(h, j)) == (q', PopFree(h, j))
            && LockFreeQueue.Step(q', PopFree(h, j)) == (Queue([Slot(None, h + 1, h)], tail, h + 1), PopDone(h, j))
  {
    var q, q' := Queue([Slot(Some(j), h, h)], tail, h + 1), Queue([Slot(None, h, h)], tail, h + 1);
    assert q.slots[0 := q.slots[0].(data := None)] == q'.slots;
    assert q'.slots[0 := q'.slots[0].(tail := h + 1)] == [Slot(None, h + 1, h)];
  }

  // the story

  /** A producer puts its job into the empty ring and finishes `set`. */
  lemma Delivers<J>(p: Pool<J>, tid: nat, j: J)
    requires tid in p.pcs && Idle(p.sys, tid) && (p.pcs[tid] == PLoop(j) || p.pcs[tid] == PRetry(j))
    requires |p.sys.q.slots| == 1 && p.sys.q.slots[0].tail == p.sys.q.tail && p.sys.q.slots[0].data == None
    ensures var s, t, k := ShotOf(p), p.sys.q.tail, if p.enq.state then 7 else 8;
            && |Steps(p, tid, k).sys.q.slots| > 0
            && ShotOf(Steps(p, tid, k))
               == Inside(s.(enq := if s.enq.state then s.enq else FastSignal(true, true)), tid,
                         Queue([Slot(Some(j), t, t)], t + 1, s.q.head), PushDone(t), Outside)
  {
    hide Steps, Inside;
    var s, t := ShotOf(p), p.sys.q.tail;
    var q := Queue([Slot(Some(j), t, t)], t + 1, s.q.head);
    PushShots(p, tid, j);
    StepsAdd(p, tid, 6, 1);
    if s.enq.state {
      InsideSignalled(Steps(p, tid, 6), tid, s, q, PushDone(t), EnqSet1, Outside, s.enq, s.deq);
    } else {
      var enq := s.enq.(state := true);
      InsideSignalled(Steps(p, tid, 6), tid, s, q, PushDone(t), EnqSet1, EnqSet2, enq, s.deq);
      StepsAdd(p, tid, 7, 1);
      InsideSignalled(Steps(p, tid, 7), tid, s.(enq := enq), q, PushDone(t), EnqSet2, Outside, FastSignal(true, true), s.deq);
    }
  }

  /** The worker takes the job, finishes `set`, runs the job and is back at the top of its loop. */
  lemma Serves<J>(p: Pool<J>, tid: nat, j: J)
    requires tid in p.pcs && Idle(p.sys, tid) && p.pcs[tid].Loop?
    requires p.sys.q.slots == [Slot(Some(j), p.sys.q.head, p.sys.q.head)]
    ensures var s, h, k := ShotOf(p), p.sys.q.head, if p.deq.state then 9 else 10;
            && |Steps(p, tid, k).sys.q.slots| > 0
            && ShotOf(Steps(p, tid, k))
               == Inside(s.(deq := if s.deq.state then s.deq else FastSignal(true, true)), tid,
                         Queue([Slot(None, h + 1, h)], s.q.tail, h + 1), PopDone(h, j), Loop)
  {
    hide Steps, Inside;
    var s, h := ShotOf(p), p.sys.q.head;
    var q, op := Queue([Slot(None, h + 1, h)], s.q.tail, h + 1), PopDone(h, j);
    PopShots(p, tid, j);
    StepsAdd(p, tid, 7, 1);
    StepsAdd(p, tid, 8, 1);
    if s.deq.state {
      InsideSignalled(Steps(p, tid, 7), tid, s, q, op, DeqSet1(h, j), Running(h, j), s.enq, s.deq);
      InsideSignalled(Steps(p, tid, 8), tid, s, q, op, Running(h, j), Loop, s.enq, s.deq);
    } else {
      var deq := s.deq.(state := true);
      InsideSignalled(Steps(p, tid, 7), tid, s, q, op, DeqSet1(h, j), DeqSet2(h, j), s.enq, deq);
      InsideSignalled(Steps(p, tid, 8), tid, s.(deq := deq), q, op, DeqSet2(h, j), Running(h, j), s.enq, FastSignal(true, true));
      StepsAdd(p, tid, 9, 1);
      InsideSignalled(Steps(p, tid, 9), tid, s.(deq := FastSignal(true, true)), q, op, Running(h, j), Loop, s.enq, FastSignal(true, true));
    }
  }

  /** A producer finds the ring full twice, with no `set` in between, and blocks. */
  lemma Sleeps<J>(p: Pool<J>, tid: nat, j: J)
    requires tid in p.pcs && Idle(p.sys, tid) && p.pcs[tid] == PLoop(j) && !p.deq.state
    requires |p.sys.q.slots| == 1 && p.sys.q.slots[0].tail != p.sys.q.tail
    ensures |Steps(p, tid, 8).sys.q.slots| > 0
    ensures var s := ShotOf(p); ShotOf(Steps(p, tid, 8)) == Inside(s, tid, s.q, PushFail, PBlocked(j))
  {
    hide Steps, Inside;
    var s := ShotOf(p);
    RefusedShots(p, tid);
    StepsAdd(p, tid, 3, 1);
    InsideSignalled(Steps(p, tid, 3), tid, s, s.q, PushFail, PReset1(j), PRetry(j), s.enq, s.deq);
    StepsAdd(p, tid, 4, 1);
    InsideCalled(Steps(p, tid, 4), tid, s, s.q, PushFail, PRetry(j));
    StepsAdd(p, tid, 5, 2);
    InsideRefused(Steps(p, tid, 5), tid, s, s.q, Push2(j));
    StepsAdd(p, tid, 7, 1);
    InsideSignalled(Steps(p, tid, 7), tid, s, s.q, PushFail, PWaitLoad(j), PBlocked(j), s.enq, s.deq);
  }

  /** A worker finds the ring empty twice, with no `set` in between, and blocks. */
  lemma Rests<J>(p: Pool<J>, tid: nat)
    requires tid in p.pcs && Idle(p.sys, tid) && p.pcs[tid].Loop? && p.enq.state
    requires |p.sys.q.slots| == 1 && p.sys.q.slots[0].head != p.sys.q.head
    ensures |Steps(p, tid, 9).sys.q.slots| > 0
    ensures var s := ShotOf(p); ShotOf(Steps(p, tid, 9)) == Inside(s.(enq := FastSignal(false, false)), tid, s.q, PopFail, Blocked)
  {
    hide Steps, Inside;
    var s := ShotOf(p);
    var half, down := s.enq.(state := false), FastSignal(false, false);
    RefusedShots(p, tid);
    StepsAdd(p, tid, 3, 1);
    InsideSignalled(Steps(p, tid, 3), tid, s, s.q, PopFail, Reset1, Reset2, half, s.deq);
    StepsAdd(p, tid, 4, 1);
    InsideSignalled(Steps(p, tid, 4), tid, s.(enq := half), s.q, PopFail, Reset2, Retry, down, s.deq);
    var r := s.(enq := down);
    StepsAdd(p, tid, 5, 1);
    InsideCalled(Steps(p, tid, 5), tid, r, s.q, PopFail, Retry);
    StepsAdd(p, tid, 6, 2);
    InsideRefused(Steps(p, tid, 6), tid, r, s.q, Pop2);
    StepsAdd(p, tid, 8, 1);
    InsideSignalled(Steps(p, tid, 8), tid, r, s.q, PopFail, WaitLoad, Blocked, down, s.deq);
  }

  lemma SubmitShot<J>(p: Pool<J>, tid: nat, j: J)
    requires |p.sys.q.slots| > 0 && (tid in p.pcs ==> p.pcs[tid].Outside?)
    ensures ShotOf(Act(p, Submit(tid, j))) == ShotOf(p).(pcs := p.pcs[tid := PLoop(j)])
    ensures |Act(p, Submit(tid, j)).sys.q.slots| > 0
  {
  }

  /** The ring is full, thread 2 sleeps and thread 1 is about to call `reset`. */
  function FullShot<J>(j1: J, j2: J, j3: J): Shot<J> {
    Shot(Queue([Slot(Some(j1), 0, 0)], 1, 0), map[1 := PushFail, 2 := PushFail],
         map[0 := Loop, 1 := PReset1(j3), 2 := PBlocked(j2)], FastSignal(true, true), FastSignal(false, false))
  }

  function OneQueued<J>(j1: J): Shot<J> {
    Shot(Queue([Slot(Some(j1), 0, 0)], 1, 0), map[1 := PushDone(0)], map[0 := Loop, 1 := Outside], FastSignal(true, true), FastSignal(false, false))
  }

  lemma FirstQueued<J>(j1: J) returns (actions: seq<ThreadPool.Action<J>>)
    ensures ShotOf(ThreadPool.Interleave(1, {0}, actions)) == OneQueued(j1)
  {
    hide Act, Steps, ThreadPool.Interleave;
    var p := ThreadPool.Interleave<J>(1, {0}, []);
    NothingDone<J>(1, {0});
    assert p.sys.q.slots == [Slot(None, 0, -1)] && p.pcs == map[0 := Loop];
    OneMoreAction(1, {0}, [], Submit(1, j1));
    SubmitShot(p, 1, j1);
    var a := Act(p, Submit(1, j1));
    Delivers(a, 1, j1);
    actions := MoreSteps(1, {0}, [] + [Submit(1, j1)], 1, 8);
    assert ShotOf(Steps(a, 1, 8)).pcs == OneQueued(j1).pcs;
  }

  lemma OneSleeps<J>(j1: J, j2: J, before: seq<ThreadPool.Action<J>>) returns (actions: seq<ThreadPool.Action<J>>)
    requires ShotOf(ThreadPool.Interleave(1, {0}, before)) == OneQueued(j1)
    ensures ShotOf(ThreadPool.Interleave(1, {0}, actions))
            == OneQueued(j1).(ops := map[1 := PushDone(0), 2 := PushFail], pcs := map[0 := Loop, 1 := Outside, 2 := PBlocked(j2)])
  {
    hide Act, Steps, ThreadPool.Interleave;
    var p := ThreadPool.Interleave<J>(1, {0}, before);
    OneMoreAction(1, {0}, before, Submit(2, j2));
    SubmitShot(p, 2, j2);
    var a := Act(p, Submit(2, j2));
    Sleeps(a, 2, j2);
    actions := MoreSteps(1, {0}, before + [Submit(2, j2)], 2, 8);
    assert ShotOf(Steps(a, 2, 8)).pcs == map[0 := Loop, 1 := Outside, 2 := PBlocked(j2)];
  }

  lemma OneFinds<J>(j1: J, j2: J, j3: J, before: seq<ThreadPool.Action<J>>) returns (actions: seq<ThreadPool.Action<J>>)
    requires ShotOf(ThreadPool.Interleave(1, {0}, before))
             == OneQueued(j1).(ops := map[1 := PushDone(0), 2 := PushFail], pcs := map[0 := Loop, 1 := Outside, 2 := PBlocked(j2)])
    ensures ShotOf(ThreadPool.Interleave(1, {0}, actions)) == FullShot(j1, j2, j3)
  {
    hide Act, Steps, ThreadPool.Interleave;
    var p := ThreadPool.Interleave<J>(1, {0}, before);
    OneMoreAction(1, {0}, before, Submit(1, j3));
    SubmitShot(p, 1, j3);
    var a := Act(p, Submit(1, j3));
    RefusedShots(a, 1);
    actions := MoreSteps(1, {0}, before + [Submit(1, j3)], 1, 3);
    assert ShotOf(Steps(a, 1, 3)).pcs == FullShot(j1, j2, j3).pcs;
    assert ShotOf(Steps(a, 1, 3)).ops == FullShot(j1, j2, j3).ops;
  }

  /** The worker takes the first job; thread 1 makes the first half of its `reset`. */
  function HalfReset<J>(j1: J, j2: J, j3: J): Shot<J> {
    Shot(Queue([Slot(None, 1, 0)], 1, 1), map[0 := PopDone(0, j1), 1 := PushFail, 2 := PushFail],
         map[0 := Loop, 1 := PReset2(j3), 2 := PBlocked(j2)], FastSignal(true, true), FastSignal(false, true))
  }

  function Served1<J>(j1: J, j2: J, j3: J): Shot<J> {
    FullShot(j1, j2, j3).(q := Queue([Slot(None, 1, 0)], 1, 1), ops := map[0 := PopDone(0, j1), 1 := PushFail, 2 := PushFail],
                          deq := FastSignal(true, true))
  }

  lemma FirstServes<J>(p: Pool<J>, j1: J, j2: J, j3: J)
    requires ShotOf(p) == FullShot(j1, j2, j3)
    ensures |p.sys.q.slots| > 0 && |Steps(p, 0, 10).sys.q.slots| > 0 && ShotOf(Steps(p, 0, 10)) == Served1(j1, j2, j3)
  {
    hide Steps;
    Serves(p, 0, j1);
    assert ShotOf(Steps(p, 0, 10)).pcs == Served1(j1, j2, j3).pcs;
    assert ShotOf(Steps(p, 0, 10)).ops == Served1(j1, j2, j3).ops;
  }

  lemma HalfResets<J>(p: Pool<J>, j1: J, j2: J, j3: J)
    requires ShotOf(p) == Served1(j1, j2, j3)
    ensures |p.sys.q.slots| > 0 && ShotOf(Steps(p, 1, 1)) == HalfReset(j1, j2, j3)
  {
    hide Steps;
    SignalStepped(p, 1);
    assert ShotOf(Steps(p, 1, 1)).pcs == HalfReset(j1, j2, j3).pcs;
  }

  lemma FirstServed<J>(j1: J, j2: J, j3: J, before: seq<ThreadPool.Action<J>>) returns (actions: seq<ThreadPool.Action<J>>)
    requires ShotOf(ThreadPool.Interleave(1, {0}, before)) == FullShot(j1, j2, j3)
    ensures ShotOf(ThreadPool.Interleave(1, {0}, actions)) == HalfReset(j1, j2, j3)
  {
    hide Act, Steps, ThreadPool.Interleave, ShotOf, FullShot, Served1, HalfReset;
    var p := ThreadPool.Interleave<J>(1, {0}, before);
    FirstServes(p, j1, j2, j3);
    actions := MoreSteps(1, {0}, before, 0, 10);
    HalfResets(Steps(p, 0, 10), j1, j2, j3);
    actions := MoreSteps(1, {0}, actions, 1, 1);
  }

  /** A third job comes and goes between the two halves. */
  function TwoServed<J>(j2: J, j3: J, j4: J): Shot<J> {
    Shot(Queue([Slot(None, 2, 1)], 2, 2), map[0 := PopDone(1, j4), 1 := PushFail, 2 := PushFail, 3 := PushDone(1)],
         map[0 := Loop, 1 := PReset2(j3), 2 := PBlocked(j2), 3 := Outside], FastSignal(true, true), FastSignal(true, true))
  }

  function Queued2<J>(j1: J, j2: J, j3: J, j4: J): Shot<J> {
    HalfReset(j1, j2, j3).(q := Queue([Slot(Some(j4), 1, 1)], 2, 1),
                           ops := map[0 := PopDone(0, j1), 1 := PushFail, 2 := PushFail, 3 := PushDone(1)],
                           pcs := map[0 := Loop, 1 := PReset2(j3), 2 := PBlocked(j2), 3 := Outside])
  }

  lemma SecondQueues<J>(p: Pool<J>, j1: J, j2: J, j3: J, j4: J)
    requires ShotOf(p) == HalfReset(j1, j2, j3)
    ensures |p.sys.q.slots| > 0
    ensures var a := Act(p, Submit(3, j4));
            |a.sys.q.slots| > 0 && |Steps(a, 3, 7).sys.q.slots| > 0 && ShotOf(Steps(a, 3, 7)) == Queued2(j1, j2, j3, j4)
  {
    hide Act, Steps;
    SubmitShot(p, 3, j4);
    var a := Act(p, Submit(3, j4));
    Delivers(a, 3, j4);
    assert ShotOf(Steps(a, 3, 7)).pcs == Queued2(j1, j2, j3, j4).pcs;
    assert ShotOf(Steps(a, 3, 7)).ops == Queued2(j1, j2, j3, j4).ops;
  }

  lemma SecondServes<J>(p: Pool<J>, j1: J, j2: J, j3: J, j4: J)
    requires ShotOf(p) == Queued2(j1, j2, j3, j4)
    ensures |p.sys.q.slots| > 0 && ShotOf(Steps(p, 0, 10)) == TwoServed(j2, j3, j4)
  {
    hide Steps;
    Serves(p, 0, j4);
    assert ShotOf(Steps(p, 0, 10)).pcs == TwoServed(j2, j3, j4).pcs;
    assert ShotOf(Steps(p, 0, 10)).ops == TwoServed(j2, j3, j4).ops;
  }

  lemma SecondServed<J>(j1: J, j2: J, j3: J, j4: J, before: seq<ThreadPool.Action<J>>) returns (actions: seq<ThreadPool.Action<J>>)
    requires ShotOf(ThreadPool.Interleave(1, {0}, before)) == HalfReset(j1, j2, j3)
    ensures ShotOf(ThreadPool.Interleave(1, {0}, actions)) == TwoServed(j2, j3, j4)
  {
    hide Act, Steps, ThreadPool.Interleave, ShotOf, HalfReset, Queued2, TwoServed;
    var p := ThreadPool.Interleave<J>(1, {0}, before);
    OneMoreAction(1, {0}, before, Submit(3, j4));
    SecondQueues(p, j1, j2, j3, j4);
    actions := MoreSteps(1, {0}, before + [Submit(3, j4)], 3, 7);
    SecondServes(Steps(Act(p, Submit(3, j4)), 3, 7), j1, j2, j3, j4);
    actions := MoreSteps(1, {0}, actions, 0, 10);
  }

  /** The second half of the `reset` takes the signal down, and thread 1 leaves with its second `push`. */
  function Taken<J>(j2: J, j3: J, j4: J): Shot<J> {
    Shot(Queue([Slot(Some(j3), 2, 2)], 3, 2), map[0 := PopDone(1, j4), 1 := PushDone(2), 2 := PushFail, 3 := PushDone(1)],
         map[0 := Loop, 1 := Outside, 2 := PBlocked(j2), 3 := Outside], FastSignal(true, true), FastSignal(true, false))
  }

  function SignalDown<J>(j2: J, j3: J, j4: J): Shot<J> {
    TwoServed(j2, j3, j4).(pcs := map[0 := Loop, 1 := PRetry(j3), 2 := PBlocked(j2), 3 := Outside], deq := FastSignal(true, false))
  }

  lemma SignalGoes<J>(p: Pool<J>, j2: J, j3: J, j4: J)
    requires ShotOf(p) == TwoServed(j2, j3, j4)
    ensures |p.sys.q.slots| > 0 && |Steps(p, 1, 1).sys.q.slots| > 0 && ShotOf(Steps(p, 1, 1)) == SignalDown(j2, j3, j4)
  {
    hide Steps;
    SignalStepped(p, 1);
    assert ShotOf(Steps(p, 1, 1)).pcs == SignalDown(j2, j3, j4).pcs;
  }

  lemma ThirdQueues<J>(p: Pool<J>, j2: J, j3: J, j4: J)
    requires ShotOf(p) == SignalDown(j2, j3, j4)
    ensures |p.sys.q.slots| > 0 && ShotOf(Steps(p, 1, 7)) == Taken(j2, j3, j4)
  {
    hide Steps;
    Delivers(p, 1, j3);
    assert ShotOf(Steps(p, 1, 7)).pcs == Taken(j2, j3, j4).pcs;
    assert ShotOf(Steps(p, 1, 7)).ops == Taken(j2, j3, j4).ops;
  }

  lemma SignalTaken<J>(j2: J, j3: J, j4: J, before: seq<ThreadPool.Action<J>>) returns (actions: seq<ThreadPool.Action<J>>)
    requires ShotOf(ThreadPool.Interleave(1, {0}, before)) == TwoServed(j2, j3, j4)
    ensures ShotOf(ThreadPool.Interleave(1, {0}, actions)) == Taken(j2, j3, j4)
  {
    hide Act, Steps, ThreadPool.Interleave, ShotOf, TwoServed, SignalDown, Taken;
    var p := ThreadPool.Interleave<J>(1, {0}, before);
    SignalGoes(p, j2, j3, j4);
    actions := MoreSteps(1, {0}, before, 1, 1);
    ThirdQueues(Steps(p, 1, 1), j2, j3, j4);
    actions := MoreSteps(1, {0}, actions, 1, 7);
  }

  /** Nobody is left to wake thread 2. */
  function Missed<J>(j2: J): Shot<J> {
    Shot(Queue([Slot(None, 3, 2)], 3, 3), map[0 := PopFail, 1 := PushDone(2), 2 := PushFail, 3 := PushDone(1)],
         map[0 := Blocked, 1 := Outside, 2 := PBlocked(j2), 3 := Outside], FastSignal(false, false), FastSignal(true, false))
  }

  function AllServed<J>(j2: J, j3: J): Shot<J> {
    Missed(j2).(ops := map[0 := PopDone(2, j3), 1 := PushDone(2), 2 := PushFail, 3 := PushDone(1)],
                pcs := map[0 := Loop, 1 := Outside, 2 := PBlocked(j2), 3 := Outside], enq := FastSignal(true, true))
  }

  lemma LastServes<J>(p: Pool<J>, j2: J, j3: J, j4: J)
    requires ShotOf(p) == Taken(j2, j3, j4)
    ensures |p.sys.q.slots| > 0 && |Steps(p, 0, 9).sys.q.slots| > 0 && ShotOf(Steps(p, 0, 9)) == AllServed(j2, j3)
  {
    hide Steps;
    Serves(p, 0, j3);
    assert ShotOf(Steps(p, 0, 9)).pcs == AllServed(j2, j3).pcs;
    assert ShotOf(Steps(p, 0, 9)).ops == AllServed(j2, j3).ops;
  }

  lemma WorkerRests<J>(p: Pool<J>, j2: J, j3: J)
    requires ShotOf(p) == AllServed(j2, j3)
    ensures |p.sys.q.slots| > 0 && ShotOf(Steps(p, 0, 9)) == Missed(j2)
  {
    hide Steps;
    Rests(p, 0);
    assert ShotOf(Steps(p, 0, 9)).pcs == Missed(j2).pcs;
    assert ShotOf(Steps(p, 0, 9)).ops == Missed(j2).ops;
  }

  lemma LastServed<J>(j2: J, j3: J, j4: J, before: seq<ThreadPool.Action<J>>) returns (actions: seq<ThreadPool.Action<J>>)
    requires ShotOf(ThreadPool.Interleave(1, {0}, before)) == Taken(j2, j3, j4)
    ensures ShotOf(ThreadPool.Interleave(1, {0}, actions)) == Missed(j2)
  {
    hide Act, Steps, ThreadPool.Interleave, ShotOf, Taken, AllServed, Missed;
    var p := ThreadPool.Interleave<J>(1, {0}, before);
    LastServes(p, j2, j3, j4);
    actions := MoreSteps(1, {0}, before, 0, 9);
    WorkerRests(Steps(p, 0, 9), j2, j3);
    actions := MoreSteps(1, {0}, actions, 0, 9);
  }

  /**
   With more than one call of `run` at a time a producer can miss its wake-up for good: the queue is
   empty, the producer sleeps with its job, and no thread can move any more. While one producer was
   between the two halves of its `reset`, a worker called `set`; the second half takes that signal
   away, the producer leaves, and the flag that stays up keeps every later `set` from signalling.
   */
  lemma WakeUpMissed<J>(j1: J, j2: J, j3: J, j4: J) returns (actions: seq<ThreadPool.Action<J>>)
    ensures var p := ThreadPool.Interleave(1, {0}, actions);
            && p.sys.q.head == p.sys.q.tail && Room(p) && !Freeing(p)
            && 2 in p.pcs && p.pcs[2] == PBlocked(j2) && Stuck(p, 2)
            && forall tid :: tid in p.pcs ==> Act(p, ThreadPool.Action.Run(tid)) == p
  {
    hide ThreadPool.Interleave, OneQueued, FullShot, HalfReset, TwoServed, Taken;
    actions := FirstQueued(j1);
    actions := OneSleeps(j1, j2, actions);
    actions := OneFinds(j1, j2, j3, actions);
    actions := FirstServed(j1, j2, j3, actions);
    actions := SecondServed(j1, j2, j3, j4, actions);
    actions := SignalTaken(j2, j3, j4, actions);
    actions := LastServed(j2, j3, j4, actions);
    NobodyMoves(ThreadPool.Interleave(1, {0}, actions), j2);
  }

  lemma NobodyMoves<J>(p: Pool<J>, j2: J)
    requires ShotOf(p) == Missed(j2)
    ensures p.sys.q.head == p.sys.q.tail && |p.sys.q.slots| == 1 && Room(p) && !Freeing(p)
    ensures 2 in p.pcs && p.pcs[2] == PBlocked(j2) && Stuck(p, 2)
    ensures forall tid :: tid in p.pcs ==> Act(p, ThreadPool.Action.Run(tid)) == p
  {
    hide QueueStep;
    assert p.pcs == map[0 := Blocked, 1 := Outside, 2 := PBlocked(j2), 3 := Outside];
  }
}
