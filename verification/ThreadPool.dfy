/**
 The worker pool of `Future<void>::Private::ThreadPool`: workers and producers around one
 lock-free queue and two `FastSignal`s, each thread taking one atomic step at a time.
 */
module ThreadPool {
  import opened Basics
  import opened LockFreeQueue

  /** The flag word `_state` (nonzero or zero) and the state of the `Signal` behind it. */
  datatype FastSignal = FastSignal(state: bool, signaled: bool)

  /** Where a thread stands in `ThreadContext::proc` or `ThreadPool::run`. */
  datatype Pc<J> =
    // a worker
    | Loop                                     // top of the loop
    | Pop1                                     // inside the first `pop`
    | Reset1 | Reset2                          // the two halves of `enqueuedSignal.reset`
    | Retry
    | Pop2                                     // inside the second `pop`
    | WaitLoad                                 // about to load `_state` in `wait`
    | Blocked                                  // inside `Signal::wait`
    | DeqSet1(h: nat, job: J) | DeqSet2(h: nat, job: J)   // the two halves of `dequeuedSignal.set`
    | Running(h: nat, job: J)
    // a producer
    | Outside                                  // not in `run`
    | Push1(job: J)
    | PReset1(job: J) | PReset2(job: J)        // the two halves of `_dequeuedSignal.reset`
    | PRetry(job: J)
    | Push2(job: J)
    | PWaitLoad(job: J)
    | PBlocked(job: J)
    | PLoop(job: J)
    | EnqSet1 | EnqSet2                        // the two halves of `_enqueuedSignal.set`

  /**
   The pool. `ran` is a history variable: the tickets of the jobs started so far.
   */
  datatype Pool<J> = Pool(sys: System<J>, enq: FastSignal, deq: FastSignal, workers: set<nat>, pcs: map<nat, Pc<J>>, ran: seq<nat>)

  datatype Action<J> = Submit(tid: nat, job: J) | Run(tid: nat)

  predicate IsWorker<J>(pc: Pc<J>) {
    pc.Loop? || pc.Pop1? || pc.Reset1? || pc.Reset2? || pc.Retry? || pc.Pop2? || pc.WaitLoad? || pc.Blocked?
    || pc.DeqSet1? || pc.DeqSet2? || pc.Running?
  }

  /** The thread is inside a queue operation. */
  predicate InQueue<J>(pc: Pc<J>) {
    pc.Pop1? || pc.Pop2? || pc.Push1? || pc.Push2?
  }

  /** What follows a queue operation that now stands at `op`. */
  function AfterOp<J>(pc: Pc<J>, op: Op<J>): Pc<J>
    requires InQueue(pc)
  {
    match op
    case PopDone(h, r) => DeqSet1(h, r)
    case PushDone(_) => EnqSet1
    case PopFail => if pc.Pop1? then Reset1 else WaitLoad
    case PushFail => if pc.Push1? then PReset1(pc.job) else if pc.Push2? then PWaitLoad(pc.job) else pc
    case _ => pc
  }

  /** The single atomic step a thread makes next. */
  function Step<J>(p: Pool<J>, tid: nat): Pool<J>
    requires |p.sys.q.slots| > 0 && tid in p.pcs
  {
    match p.pcs[tid]
    case Loop => p.(sys := Apply(p.sys, CallPop(tid)), pcs := p.pcs[tid := Pop1])
    case Retry => p.(sys := Apply(p.sys, CallPop(tid)), pcs := p.pcs[tid := Pop2])
    case PLoop(j) => p.(sys := Apply(p.sys, CallPush(tid, j)), pcs := p.pcs[tid := Push1(j)])
    case PRetry(j) => p.(sys := Apply(p.sys, CallPush(tid, j)), pcs := p.pcs[tid := Push2(j)])
    case Reset1 =>
      if p.enq.state then p.(enq := p.enq.(state := false), pcs := p.pcs[tid := Reset2]) else p.(pcs := p.pcs[tid := Retry])
    case Reset2 => p.(enq := p.enq.(signaled := false), pcs := p.pcs[tid := Retry])
    case WaitLoad => p.(pcs := p.pcs[tid := if p.enq.state then Loop else Blocked])
    case Blocked => if p.enq.signaled then p.(pcs := p.pcs[tid := Loop]) else p
    case DeqSet1(h, j) =>
      if p.deq.state then Start(p, tid, h, j)
      else p.(deq := p.deq.(state := true), pcs := p.pcs[tid := DeqSet2(h, j)])
    case DeqSet2(h, j) => Start(p.(deq := p.deq.(signaled := true)), tid, h, j)
    case Running(_, _) => p.(pcs := p.pcs[tid := Loop])
    case Outside => p
    case PReset1(j) =>
      if p.deq.state then p.(deq := p.deq.(state := false), pcs := p.pcs[tid := PReset2(j)]) else p.(pcs := p.pcs[tid := PRetry(j)])
    case PReset2(j) => p.(deq := p.deq.(signaled := false), pcs := p.pcs[tid := PRetry(j)])
    case PWaitLoad(j) => p.(pcs := p.pcs[tid := if p.deq.state then PLoop(j) else PBlocked(j)])
    case PBlocked(j) => if p.deq.signaled then p.(pcs := p.pcs[tid := PLoop(j)]) else p
    case EnqSet1 =>
      if p.enq.state then p.(pcs := p.pcs[tid := Outside])
      else p.(enq := p.enq.(state := true), pcs := p.pcs[tid := EnqSet2])
    case EnqSet2 => p.(enq := p.enq.(signaled := true), pcs := p.pcs[tid := Outside])
    case _ => QueueStep(p, tid)
  }

  /** One step of the queue operation the thread is in. */
  function QueueStep<J>(p: Pool<J>, tid: nat): Pool<J>
    requires |p.sys.q.slots| > 0 && tid in p.pcs && InQueue(p.pcs[tid])
  {
    var sys := Apply(p.sys, LockFreeQueue.Run(tid));
    p.(sys := sys, pcs := if tid in sys.ops then p.pcs[tid := AfterOp(p.pcs[tid], sys.ops[tid])] else p.pcs)
  }

  /** The worker starts the job it popped. */
  function Start<J>(p: Pool<J>, tid: nat, h: nat, job: J): Pool<J> {
    p.(pcs := p.pcs[tid := Running(h, job)], ran := p.ran + [h])
  }

  /** One action of one thread: a thread outside the pool calls `run`, or a thread makes its next step. */
  function Act<J>(p: Pool<J>, a: Action<J>): Pool<J>
    requires |p.sys.q.slots| > 0
  {
    match a
    case Submit(tid, j) =>
      if tid !in p.pcs || p.pcs[tid].Outside? then p.(pcs := p.pcs[tid := PLoop(j)]) else p
    case Run(tid) => if tid in p.pcs then Step(p, tid) else p
  }

  function Constructed<J>(capacity: nat, workers: set<nat>): Pool<J> {
    Pool(LockFreeQueue.Constructed(capacity), FastSignal(false, false), FastSignal(false, false),
         workers, map w | w in workers :: Loop, [])
  }

  /** The state after any interleaving of the workers and any number of producers. */
  function Interleave<J>(capacity: nat, workers: set<nat>, actions: seq<Action<J>>): (p: Pool<J>)
    requires capacity > 0
    ensures |p.sys.q.slots| == capacity
  {
    if actions == [] then Constructed(capacity, workers)
    else
      var q, a := Interleave(capacity, workers, actions[..|actions| - 1]), actions[|actions| - 1];
      ActKeepsRing(q, a);
      Act(q, a)
  }

  lemma ActKeepsRing<J>(p: Pool<J>, a: Action<J>)
    requires |p.sys.q.slots| > 0
    ensures |Act(p, a).sys.q.slots| == |p.sys.q.slots|
  {
    hide AfterOp;
  }

  // ---- how the threads hang on to the queue ----

  /** A call of `pop` (of `push` for `job`) that has not returned. */
  predicate Popping<J>(op: Op<J>) {
    op.PopStart? || op.PopCheck? || op.PopCas? || op.PopRead? || op.PopDestroy? || op.PopFree?
  }

  predicate Pushing<J>(op: Op<J>) {
    op.PushStart? || op.PushCheck? || op.PushCas? || op.PushWrite? || op.PushPublish?
  }

  ghost predicate Wired<J>(p: Pool<J>, tid: nat)
    requires tid in p.pcs
  {
    var pc := p.pcs[tid];
    && (tid in p.workers <==> IsWorker(pc))
    && (pc.Pop1? || pc.Pop2? ==> tid in p.sys.ops && Popping(p.sys.ops[tid]))
    && (pc.Push1? || pc.Push2? ==> tid in p.sys.ops && Pushing(p.sys.ops[tid]) && p.sys.ops[tid].x == pc.job)
    && (!InQueue(pc) ==> Idle(p.sys, tid))
  }

  ghost predicate PoolInv<J>(p: Pool<J>) {
    && |p.sys.q.slots| > 0 && Inv(p.sys)
    && p.workers <= p.pcs.Keys
    && (forall tid :: tid in p.sys.ops ==> tid in p.pcs)
    && (forall tid :: tid in p.pcs ==> Wired(p, tid))
  }

  lemma ConstructedPool<J>(capacity: nat, workers: set<nat>)
    requires capacity > 0
    ensures PoolInv(Constructed<J>(capacity, workers))
  {
    ConstructedInv<J>(capacity);
  }

  lemma ActPool<J>(p: Pool<J>, a: Action<J>)
    requires PoolInv(p)
    ensures PoolInv(Act(p, a)) && Act(p, a).workers == p.workers
  {
    if a.Submit? {
      var p' := Act(p, a);
      forall tid | tid in p'.pcs ensures Wired(p', tid) { if tid in p.pcs { assert Wired(p, tid); } }
    } else if a.tid in p.pcs {
      StepPool(p, a.tid);
    }
  }

  lemma StepPool<J>(p: Pool<J>, tid: nat)
    requires PoolInv(p) && tid in p.pcs
    ensures PoolInv(Step(p, tid)) && Step(p, tid).workers == p.workers
  {
    hide Step, Wired, Inv;
    var p' := Step(p, tid);
    StepQueue(p, tid);
    StepOthers(p, tid);
    forall id | id in p'.pcs ensures Wired(p', id) {
      assert Wired(p, id);
      if id == tid { StepWired(p, tid); } else { StaysWired(p, p', id); }
    }
  }

  lemma StepOthers<J>(p: Pool<J>, tid: nat)
    requires |p.sys.q.slots| > 0 && tid in p.pcs
    ensures var p' := Step(p, tid);
            p'.workers == p.workers && p'.pcs.Keys == p.pcs.Keys && forall id :: id in p.pcs && id != tid ==> p'.pcs[id] == p.pcs[id]
  {
    hide LockFreeQueue.Apply;
  }

  lemma StaysWired<J>(p: Pool<J>, p': Pool<J>, id: nat)
    requires id in p.pcs && id in p'.pcs && Wired(p, id) && p'.pcs[id] == p.pcs[id] && p'.workers == p.workers
    requires id in p.sys.ops <==> id in p'.sys.ops
    requires id in p.sys.ops ==> p'.sys.ops[id] == p.sys.ops[id]
    ensures Wired(p', id)
  {
  }

  /** A call stays the same call until it returns. */
  lemma CallGoesOn<J>(s: System<J>, tid: nat)
    requires Inv(s) && tid in s.ops
    ensures tid in Advance(s, tid).ops && |Advance(s, tid).q.slots| == |s.q.slots| > 0
    ensures var op, op' := s.ops[tid], Advance(s, tid).ops[tid];
            && (Popping(op) ==> Popping(op') || op'.PopDone? || op'.PopFail?)
            && (Pushing(op) ==> (Pushing(op') && op'.x == op.x) || op'.PushDone? || op'.PushFail?)
  {
    assert OpOk(s, s.ops[tid]);
  }

  lemma StepWired<J>(p: Pool<J>, tid: nat)
    requires PoolInv(p) && tid in p.pcs
    ensures tid in Step(p, tid).pcs && Wired(Step(p, tid), tid)
  {
    hide Inv, Advance;
    assert Wired(p, tid);
    if InQueue(p.pcs[tid]) {
      QueueStepWired(p, tid);
    }
  }

  lemma QueueStepWired<J>(p: Pool<J>, tid: nat)
    requires PoolInv(p) && tid in p.pcs && InQueue(p.pcs[tid])
    ensures Step(p, tid) == QueueStep(p, tid) && Wired(QueueStep(p, tid), tid)
  {
    hide Inv, Advance;
    assert Wired(p, tid);
    CallGoesOn(p.sys, tid);
  }

  /** Each pool step is a step of the queue system or leaves it alone. */
  lemma StepQueue<J>(p: Pool<J>, tid: nat)
    requires PoolInv(p) && tid in p.pcs
    ensures var p' := Step(p, tid);
            && |p'.sys.q.slots| > 0 && Inv(p'.sys)
            && (forall id :: id in p.sys.ops && id != tid ==> id in p'.sys.ops && p'.sys.ops[id] == p.sys.ops[id])
            && (forall id :: id in p'.sys.ops && id != tid ==> id in p.sys.ops)
  {
    hide Inv, Wired;
    var p', pc := Step(p, tid), p.pcs[tid];
    if pc.Loop? || pc.Retry? {
      ApplyInv(p.sys, CallPop(tid));
    } else if pc.PLoop? || pc.PRetry? {
      ApplyInv(p.sys, CallPush(tid, pc.job));
    } else if InQueue(pc) {
      ApplyInv(p.sys, LockFreeQueue.Run(tid));
    } else {
      assert p'.sys == p.sys;
    }
  }

  // ---- no worker sleeps on work ----

  /** The job at the front of the queue is published: a `pop` would get it. */
  predicate FrontPublished<J>(p: Pool<J>)
    requires |p.sys.q.slots| > 0
  {
    p.sys.q.slots[p.sys.q.head % |p.sys.q.slots|].head == p.sys.q.head
  }

  /** Some producer has published its job and not finished `_enqueuedSignal.set`. */
  ghost predicate Setting<J>(p: Pool<J>) {
    exists tid :: tid in p.pcs && (p.pcs[tid].EnqSet1? || p.pcs[tid].EnqSet2?)
  }

  ghost predicate Raising<J>(p: Pool<J>) {
    exists tid :: tid in p.pcs && p.pcs[tid].EnqSet2?
  }

  predicate Asleep<J>(p: Pool<J>, w: nat)
    requires w in p.pcs
  {
    p.pcs[w].Blocked? && !p.enq.signaled
  }

  /** Worker `w` will look at the queue again before it can block. */
  predicate Alert<J>(p: Pool<J>, w: nat)
    requires w in p.pcs
  {
    match p.pcs[w]
    case Pop2 =>
      w in p.sys.ops && p.sys.ops[w].PopCheck?
      ==> p.sys.ops[w].h == p.sys.q.head || p.enq.state || p.enq.signaled
    case WaitLoad => p.enq.state || p.enq.signaled
    case Blocked => p.enq.signaled
    case _ => true
  }

  /**
   A raised flag word whose signal is down has a producer about to raise the signal or a worker
   that is not blocked; a published front job has a producer still signalling or an alert worker.
   */
  ghost predicate WakeInv<J>(p: Pool<J>)
    requires |p.sys.q.slots| > 0
  {
    && (p.enq.state && !p.enq.signaled ==> Raising(p) || exists w :: w in p.workers && w in p.pcs && !p.pcs[w].Blocked?)
    && (FrontPublished(p) && !Setting(p) ==> exists w :: w in p.workers && w in p.pcs && Alert(p, w))
  }

  /** What one step of a queue operation can do to the front of the queue. */
  lemma FrontAdvance<J>(s: System<J>, tid: nat)
    requires Inv(s) && tid in s.ops
    ensures var s', n := Advance(s, tid), |s.q.slots|;
            || (s.ops[tid].PushPublish? && s'.ops[tid].PushDone?)
            || (s'.q.head == s.q.head + 1 && s'.ops[tid].PopRead?)
            || (s'.q.head == s.q.head && s'.q.slots[s.q.head % n].head == s.q.slots[s.q.head % n].head)
  {
    assert OpOk(s, s.ops[tid]);
  }

  /** What one step of a thread can do to the front of the queue. */
  lemma FrontStep<J>(p: Pool<J>, tid: nat)
    requires PoolInv(p) && tid in p.pcs
    ensures var p' := Step(p, tid); tid in p'.pcs && |p'.sys.q.slots| == |p.sys.q.slots| && FrontCases(p, p', tid)
  {
    hide Inv, Advance;
    if InQueue(p.pcs[tid]) {
      QueueFrontStep(p, tid);
    } else {
      assert Step(p, tid).sys.q == p.sys.q;
    }
  }

  /** The step published a job, took the front job, or left the front alone. */
  ghost predicate FrontCases<J>(p: Pool<J>, p': Pool<J>, tid: nat)
    requires tid in p'.pcs && |p'.sys.q.slots| == |p.sys.q.slots| > 0
  {
    || p'.pcs[tid].EnqSet1?
    || (tid in p.workers && Alert(p', tid))
    || (p'.sys.q.head == p.sys.q.head && FrontPublished(p') == FrontPublished(p))
  }

  lemma QueueFrontStep<J>(p: Pool<J>, tid: nat)
    requires PoolInv(p) && tid in p.pcs && InQueue(p.pcs[tid])
    ensures var p' := QueueStep(p, tid);
            p' == Step(p, tid) && tid in p'.pcs && |p'.sys.q.slots| == |p.sys.q.slots| && FrontCases(p, p', tid)
  {
    hide Inv, Advance;
    assert Wired(p, tid);
    FrontAdvance(p.sys, tid);
    CallGoesOn(p.sys, tid);
  }

  /** A step of one thread leaves the others where they are. */
  lemma OthersStay<J>(p: Pool<J>, tid: nat, id: nat)
    requires |p.sys.q.slots| > 0 && tid in p.pcs && id in p.pcs && id != tid
    ensures id in Step(p, tid).pcs && Step(p, tid).pcs[id] == p.pcs[id]
  {
  }

  /** What a step does to `_enqueuedSignal`. */
  lemma SignalStep<J>(p: Pool<J>, tid: nat)
    requires |p.sys.q.slots| > 0 && tid in p.pcs
    ensures var p', pc := Step(p, tid), p.pcs[tid];
            && tid in p'.pcs
            && (p.enq.state && !p'.enq.state ==> p'.pcs[tid].Reset2?)
            && (p.enq.signaled && !p'.enq.signaled ==> p'.pcs[tid].Retry?)
            && (!p.enq.state && p'.enq.state ==> p'.pcs[tid].EnqSet2?)
            && (pc.EnqSet2? ==> p'.enq.signaled)
            && (pc.EnqSet1? ==> p'.enq.state)
            && (p'.pcs[tid].Blocked? ==> pc.Blocked? || (!p.enq.state && !p'.enq.state))
  {
  }

  /** The flag half of the wake-up invariant. */
  lemma FlagStep<J>(p: Pool<J>, tid: nat)
    requires PoolInv(p) && WakeInv(p) && tid in p.pcs
    ensures var p' := Step(p, tid);
            p'.enq.state && !p'.enq.signaled
            ==> Raising(p') || exists w :: w in p'.workers && w in p'.pcs && !p'.pcs[w].Blocked?
  {
    var p' := Step(p, tid);
    SignalStep(p, tid);
    StepPool(p, tid);
    assert Wired(p', tid);
    if p'.enq.state && !p'.enq.signaled {
      if p'.pcs[tid].EnqSet2? {
      } else if tid in p.workers && !p'.pcs[tid].Blocked? {
      } else if Raising(p) {
        var id :| id in p.pcs && p.pcs[id].EnqSet2?;
        OthersStay(p, tid, id);
      } else {
        var w :| w in p.workers && w in p.pcs && !p.pcs[w].Blocked?;
        if w != tid { OthersStay(p, tid, w); }
      }
    }
  }

  /** A worker alert before another thread's step is alert after it, unless that step wakes someone itself. */
  lemma AlertKept<J>(p: Pool<J>, tid: nat, w: nat)
    requires PoolInv(p) && tid in p.pcs && w in p.workers && Alert(p, w) && FrontPublished(p)
    requires w in p.pcs && Step(p, tid).sys.q.head == p.sys.q.head
    ensures var p' := Step(p, tid);
            tid in p'.pcs && w in p'.pcs && (Alert(p', w) || (tid in p.workers && Alert(p', tid)))
  {
    var p' := Step(p, tid);
    SignalStep(p, tid);
    if w == tid {
      AlertSelf(p, tid);
    } else {
      OthersStay(p, tid, w);
      StepQueue(p, tid);
      StepPool(p, tid);
      assert Wired(p', tid);
    }
  }

  lemma AlertSelf<J>(p: Pool<J>, w: nat)
    requires PoolInv(p) && w in p.workers && Alert(p, w) && FrontPublished(p)
    requires w in p.pcs && Step(p, w).sys.q.head == p.sys.q.head
    ensures w in Step(p, w).pcs && Alert(Step(p, w), w)
  {
    assert Wired(p, w);
    if InQueue(p.pcs[w]) {
      CallGoesOn(p.sys, w);
      assert OpOk(p.sys, p.sys.ops[w]);
    }
  }

  /** With the signal up, or the flag up and nobody about to raise the signal, some worker is alert. */
  lemma SignalAlerts<J>(p: Pool<J>)
    requires PoolInv(p) && p.workers != {}
    requires p.enq.signaled || (p.enq.state && exists w :: w in p.workers && w in p.pcs && !p.pcs[w].Blocked?)
    ensures exists w :: w in p.workers && w in p.pcs && Alert(p, w)
  {
    var w :| w in p.workers && (p.enq.signaled || (w in p.pcs && !p.pcs[w].Blocked?));
    assert w in p.pcs && Alert(p, w);
  }

  /** The job half of the wake-up invariant. */
  lemma FrontKept<J>(p: Pool<J>, tid: nat)
    requires PoolInv(p) && WakeInv(p) && tid in p.pcs && p.workers != {}
    ensures var p' := Step(p, tid);
            |p'.sys.q.slots| > 0 &&
            (FrontPublished(p') && !Setting(p') ==> exists w :: w in p'.workers && w in p'.pcs && Alert(p', w))
  {
    var p', pc := Step(p, tid), p.pcs[tid];
    FrontStep(p, tid);
    SignalStep(p, tid);
    StepPool(p, tid);
    if FrontPublished(p') && !Setting(p') {
      assert !p'.pcs[tid].EnqSet1? && !p'.pcs[tid].EnqSet2?;
      if tid in p.workers && Alert(p', tid) {
      } else if pc.EnqSet2? {
        SignalAlerts(p');
      } else if pc.EnqSet1? {
        FlagStep(p, tid);
        SignalAlerts(p');
      } else {
        forall id | id in p.pcs ensures !(p.pcs[id].EnqSet1? || p.pcs[id].EnqSet2?) {
          if id != tid { OthersStay(p, tid, id); }
        }
        var w :| w in p.workers && w in p.pcs && Alert(p, w);
        AlertKept(p, tid, w);
      }
    }
  }

  lemma ActWake<J>(p: Pool<J>, a: Action<J>)
    requires PoolInv(p) && WakeInv(p) && p.workers != {}
    ensures |Act(p, a).sys.q.slots| > 0 && WakeInv(Act(p, a))
  {
    if a.Run? && a.tid in p.pcs {
      FlagStep(p, a.tid);
      FrontKept(p, a.tid);
    } else if a.Submit? {
      SubmitWake(p, a.tid, a.job);
    }
  }

  lemma SubmitWake<J>(p: Pool<J>, tid: nat, job: J)
    requires PoolInv(p) && WakeInv(p)
    ensures WakeInv(Act(p, Submit(tid, job)))
  {
    hide Inv;
    var p' := Act(p, Submit(tid, job));
    if p' != p {
      assert p' == p.(pcs := p.pcs[tid := PLoop(job)]);
      if tid in p.pcs { assert Wired(p, tid); }
      forall id | id in p.pcs && !p.pcs[id].Outside? ensures id in p'.pcs && p'.pcs[id] == p.pcs[id] {}
      if Raising(p) {
        var id :| id in p.pcs && p.pcs[id].EnqSet2?;
        assert id in p'.pcs && p'.pcs[id].EnqSet2?;
      }
      if w :| w in p.workers && w in p.pcs && !p.pcs[w].Blocked? {
        assert Wired(p, w);
        assert w in p'.workers && w in p'.pcs && !p'.pcs[w].Blocked?;
      }
      if Setting(p) {
        var id :| id in p.pcs && (p.pcs[id].EnqSet1? || p.pcs[id].EnqSet2?);
        assert id in p'.pcs && (p'.pcs[id].EnqSet1? || p'.pcs[id].EnqSet2?);
      } else if w :| w in p.workers && w in p.pcs && Alert(p, w) {
        assert Wired(p, w);
        assert w in p'.workers && w in p'.pcs && Alert(p', w);
      }
    }
  }

  lemma {:induction false} EveryPoolRun<J>(capacity: nat, workers: set<nat>, actions: seq<Action<J>>)
    requires capacity > 0 && workers != {}
    ensures var p := Interleave(capacity, workers, actions); PoolInv(p) && WakeInv(p) && p.workers == workers
  {
    if actions == [] {
      ConstructedPool<J>(capacity, workers);
      assert !FrontPublished(Constructed<J>(capacity, workers));
    } else {
      EveryPoolRun(capacity, workers, actions[..|actions| - 1]);
      var p, a := Interleave(capacity, workers, actions[..|actions| - 1]), actions[|actions| - 1];
      ActPool(p, a);
      ActWake(p, a);
    }
  }

  /**
   In every run of a pool with at least one worker: while the front job is published and no
   producer is between publishing a job and finishing `set`, some worker is not blocked.
   */
  lemma NoWorkerSleepsOnWork<J>(capacity: nat, workers: set<nat>, actions: seq<Action<J>>)
    requires capacity > 0 && workers != {}
    ensures var p := Interleave(capacity, workers, actions);
            workers <= p.pcs.Keys && (FrontPublished(p) && !Setting(p) ==> exists w :: w in workers && !Asleep(p, w))
  {
    EveryPoolRun(capacity, workers, actions);
    var p := Interleave(capacity, workers, actions);
    if FrontPublished(p) && !Setting(p) {
      var w :| w in p.workers && w in p.pcs && Alert(p, w);
      assert !Asleep(p, w);
    }
  }

  /**
   The same for the whole queue: while it holds a job and every producer is outside `run` or has
   yet to win a ticket, some worker is not blocked.
   */
  lemma NoWorkerSleepsOnQueue<J>(capacity: nat, workers: set<nat>, actions: seq<Action<J>>)
    requires capacity > 0 && workers != {}
    ensures var p := Interleave(capacity, workers, actions);
            && workers <= p.pcs.Keys
            && (p.sys.q.head < p.sys.q.tail && !Setting(p)
                && (forall tid :: tid in p.sys.ops ==> !p.sys.ops[tid].PushWrite? && !p.sys.ops[tid].PushPublish?)
                ==> exists w :: w in workers && !Asleep(p, w))
  {
    EveryPoolRun(capacity, workers, actions);
    NoWorkerSleepsOnWork(capacity, workers, actions);
    var s := Interleave(capacity, workers, actions).sys;
    var i := s.q.head % capacity;
    assert StampsOk(s, i) && HasOwner(s, i);
    var k := s.q.slots[i].tail;
    if s.q.head < s.q.tail {
      FrontSlot(s);
      if id :| id in s.ops && Owned(s.ops[id]) == Some(k) { assert OpOk(s, s.ops[id]); }
    }
  }

  /**
   Whom sleepers wait for: when all workers are blocked, nobody is in `set` and a job is queued,
   the front job is not published, and a producer still holds its ticket.
   */
  lemma SleepersWaitForTheFront<J>(capacity: nat, workers: set<nat>, actions: seq<Action<J>>)
    requires capacity > 0 && workers != {}
    ensures var p := Interleave(capacity, workers, actions);
            && workers <= p.pcs.Keys
            && ((forall w :: w in workers ==> Asleep(p, w)) && !Setting(p) && p.sys.q.head < p.sys.q.tail ==>
                  !FrontPublished(p) && exists tid :: tid in p.sys.ops && StoresFront(p.sys, tid))
  {
    EveryPoolRun(capacity, workers, actions);
    NoWorkerSleepsOnWork(capacity, workers, actions);
    var p := Interleave(capacity, workers, actions);
    var s, i := p.sys, p.sys.q.head % capacity;
    if (forall w :: w in workers ==> Asleep(p, w)) && !Setting(p) && s.q.head < s.q.tail {
      FrontSlot(s);
      assert StampsOk(s, i) && HasOwner(s, i);
      var id :| id in s.ops && Owned(s.ops[id]) == Some(s.q.head);
      assert OpOk(s, s.ops[id]);
      assert StoresFront(s, id);
    }
  }

  /** The call has won the front ticket and not published it. */
  predicate StoresFront<J>(s: System<J>, tid: nat)
    requires tid in s.ops
  {
    (s.ops[tid].PushWrite? || s.ops[tid].PushPublish?) && s.ops[tid].t == s.q.head
  }

  function Go<J>(p: Pool<J>, tid: nat): Pool<J>
    requires |p.sys.q.slots| > 0
  {
    Act(p, Action.Run(tid))
  }

  /** `k` steps of one thread. */
  function Steps<J>(p: Pool<J>, tid: nat, k: nat): Pool<J>
    requires |p.sys.q.slots| > 0
    decreases k
  {
    if k == 0 then p
    else
      ActKeepsRing(p, Action.Run(tid));
      Steps(Go(p, tid), tid, k - 1)
  }

  lemma Walk<J>(p: Pool<J>, tid: nat, k: nat)
    requires |p.sys.q.slots| > 0
    ensures Steps(p, tid, 0) == p && |Go(p, tid).sys.q.slots| > 0
    ensures Steps(p, tid, k + 1) == Steps(Go(p, tid), tid, k)
  {
    hide Act;
    ActKeepsRing(p, Action.Run(tid));
  }

  /** A step inside a queue operation. */
  lemma QueueGo<J>(p: Pool<J>, tid: nat)
    requires |p.sys.q.slots| > 0 && tid in p.pcs && InQueue(p.pcs[tid]) && tid in p.sys.ops
    ensures var p', r := Go(p, tid), LockFreeQueue.Step(p.sys.q, p.sys.ops[tid]);
            p'.sys.q == r.0 && p'.sys.ops == p.sys.ops[tid := r.1] && p'.enq == p.enq && p'.pcs == p.pcs[tid := AfterOp(p.pcs[tid], r.1)]
  {
    hide LockFreeQueue.Step, AfterOp;
  }

  /** The start of a queue operation. */
  lemma CallGo<J>(p: Pool<J>, tid: nat)
    requires |p.sys.q.slots| > 0 && tid in p.pcs && Idle(p.sys, tid) && (p.pcs[tid].Loop? || p.pcs[tid].Retry? || p.pcs[tid].PLoop?)
    ensures var p', pc := Go(p, tid), p.pcs[tid];
            && p'.sys.q == p.sys.q && p'.enq == p.enq
            && p'.sys.ops == p.sys.ops[tid := if pc.PLoop? then PushStart(pc.job) else PopStart]
            && p'.pcs == p.pcs[tid := if pc.Loop? then Pop1 else if pc.Retry? then Pop2 else Push1(pc.job)]
  {
  }

  /** A step on `_enqueuedSignal`. */
  lemma FlagGo<J>(p: Pool<J>, tid: nat)
    requires |p.sys.q.slots| > 0 && tid in p.pcs
    ensures var p', pc := Go(p, tid), p.pcs[tid];
            && (pc.Reset1? && p.enq.state ==> p' == p.(enq := p.enq.(state := false), pcs := p.pcs[tid := Reset2]))
            && (pc.Reset2? ==> p' == p.(enq := p.enq.(signaled := false), pcs := p.pcs[tid := Retry]))
            && (pc.WaitLoad? && !p.enq.state ==> p' == p.(pcs := p.pcs[tid := Blocked]))
            && (pc.EnqSet1? && !p.enq.state ==> p' == p.(enq := p.enq.(state := true), pcs := p.pcs[tid := EnqSet2]))
            && (pc.EnqSet2? ==> p' == p.(enq := p.enq.(signaled := true), pcs := p.pcs[tid := Outside]))
  {
    hide QueueStep;
  }

  lemma OneMoreAction<J>(capacity: nat, workers: set<nat>, actions: seq<Action<J>>, a: Action<J>)
    requires capacity > 0
    ensures Interleave(capacity, workers, actions + [a]) == Act(Interleave(capacity, workers, actions), a)
  {
    assert (actions + [a])[..|actions|] == actions;
  }

  lemma {:induction false} MoreSteps<J>(capacity: nat, workers: set<nat>, actions: seq<Action<J>>, tid: nat, k: nat) returns (more: seq<Action<J>>)
    requires capacity > 0
    ensures Interleave(capacity, workers, more) == Steps(Interleave(capacity, workers, actions), tid, k)
    decreases k
  {
    more := actions;
    if k > 0 {
      OneMoreAction(capacity, workers, actions, Action.Run(tid));
      more := MoreSteps(capacity, workers, actions + [Action.Run(tid)], tid, k - 1);
    }
  }

  /**
   A published job alone does not keep a worker awake. A producer wins the first ticket and stops;
   another one publishes the second job and finishes `set`; the worker cannot pop the first job,
   resets the signal, fails again and blocks.
   */
  lemma PublishedJobAsleep<J>(j1: J, j2: J) returns (actions: seq<Action<J>>)
    ensures var p := Interleave(2, {0}, actions);
            && p.pcs.Keys == {0, 1, 2} && Asleep(p, 0) && !Setting(p)
            && p.sys.q.head == 0 && p.sys.q.tail == 2
            && p.sys.q.slots[1] == Slot(Some(j2), 1, 1) && !FrontPublished(p)
  {
    hide Interleave, Act, Steps, Constructed;
    var w := {0};
    var p0 := Interleave<J>(2, w, []);
    NothingDone<J>(2, w);
    OneMoreAction(2, w, [], Submit(1, j1));
    actions := MoreSteps(2, w, [] + [Submit(1, j1)], 1, 4);
    var p1 := FirstTicketWon(p0, j1);
    OneMoreAction(2, w, actions, Submit(2, j2));
    actions := MoreSteps(2, w, actions + [Submit(2, j2)], 2, 8);
    var p2 := SecondJobPublished(p1, j1, j2);
    actions := MoreSteps(2, w, actions, 0, 9);
    WorkerBlocks(p2, j1, j2);
  }

  lemma NothingDone<J>(capacity: nat, workers: set<nat>)
    requires capacity > 0
    ensures Interleave<J>(capacity, workers, []) == Constructed<J>(capacity, workers)
  {
  }

  lemma SubmitGo<J>(p: Pool<J>, tid: nat, j: J)
    requires |p.sys.q.slots| > 0 && tid !in p.pcs
    ensures Act(p, Submit(tid, j)) == p.(pcs := p.pcs[tid := PLoop(j)])
  {
  }

  lemma FirstTicketWon<J>(p: Pool<J>, j1: J) returns (p1: Pool<J>)
    requires p == Constructed<J>(2, {0})
    ensures p1 == Steps(Act(p, Submit(1, j1)), 1, 4)
    ensures p1.sys.q == Queue([Slot(None, 0, -1), Slot(None, 1, -1)], 1, 0)
    ensures p1.enq == FastSignal(false, false) && p1.pcs == map[0 := Loop, 1 := Push1(j1)]
    ensures p1.sys.ops == map[1 := PushWrite(j1, 0)]
  {
    hide Act, Go, Steps;
    var pcs := map[0 := Loop, 1 := Push1(j1)];
    var a0 := Act(p, Submit(1, j1));
    SubmitGo(p, 1, j1);
    assert p.sys.q.slots == [Slot(None, 0, -1), Slot(None, 1, -1)] && p.sys.ops == map[];
    CallGo(a0, 1);
    Walk(a0, 1, 3);
    var a1 := Go(a0, 1);
    assert a1.pcs == pcs;
    p1 := TicketWon(a1, j1);
  }

  lemma TicketWon<J>(a1: Pool<J>, j1: J) returns (p1: Pool<J>)
    requires a1.sys.q == Queue([Slot(None, 0, -1), Slot(None, 1, -1)], 0, 0) && a1.enq == FastSignal(false, false)
    requires a1.pcs == map[0 := Loop, 1 := Push1(j1)] && a1.sys.ops == map[1 := PushStart(j1)]
    ensures p1 == Steps(a1, 1, 3)
    ensures p1.sys.q == Queue([Slot(None, 0, -1), Slot(None, 1, -1)], 1, 0)
    ensures p1.enq == a1.enq && p1.pcs == a1.pcs && p1.sys.ops == map[1 := PushWrite(j1, 0)]
  {
    hide Act, Go, Steps;
    var pcs := a1.pcs;
    QueueGo(a1, 1);
    Walk(a1, 1, 2);
    var a2 := Go(a1, 1);
    assert a2.pcs == pcs && a2.sys.ops == map[1 := PushCheck(j1, 0)];
    QueueGo(a2, 1);
    Walk(a2, 1, 1);
    var a3 := Go(a2, 1);
    assert a3.pcs == pcs && a3.sys.ops == map[1 := PushCas(j1, 0)];
    QueueGo(a3, 1);
    Walk(a3, 1, 0);
    p1 := Go(a3, 1);
    assert p1.pcs == pcs && p1.sys.ops == map[1 := PushWrite(j1, 0)];
    Walk(p1, 1, 0);
  }

  lemma SecondJobPublished<J>(p: Pool<J>, j1: J, j2: J) returns (p2: Pool<J>)
    requires p.sys.q == Queue([Slot(None, 0, -1), Slot(None, 1, -1)], 1, 0)
    requires p.enq == FastSignal(false, false) && p.pcs == map[0 := Loop, 1 := Push1(j1)] && p.sys.ops == map[1 := PushWrite(j1, 0)]
    ensures p2 == Steps(Act(p, Submit(2, j2)), 2, 8)
    ensures p2.sys.q == Queue([Slot(None, 0, -1), Slot(Some(j2), 1, 1)], 2, 0)
    ensures p2.enq == FastSignal(true, true) && p2.pcs == map[0 := Loop, 1 := Push1(j1), 2 := Outside]
    ensures p2.sys.ops == map[1 := PushWrite(j1, 0), 2 := PushDone(1)]
  {
    hide Act, Go, Steps;
    var a0 := Act(p, Submit(2, j2));
    SubmitGo(p, 2, j2);
    var a3 := SecondTicketTried(a0, j1, j2);
    var a6 := SecondJobStored(a3, j1, j2);
    FlagGo(a6, 2);
    Walk(a6, 2, 1);
    var a7 := Go(a6, 2);
    FlagGo(a7, 2);
    Walk(a7, 2, 0);
    p2 := Go(a7, 2);
    Walk(p2, 2, 0);
    assert p2.pcs == map[0 := Loop, 1 := Push1(j1), 2 := Outside];
  }

  lemma SecondTicketTried<J>(p: Pool<J>, j1: J, j2: J) returns (p': Pool<J>)
    requires p.sys.q == Queue([Slot(None, 0, -1), Slot(None, 1, -1)], 1, 0) && p.sys.ops == map[1 := PushWrite(j1, 0)]
    requires p.pcs == map[0 := Loop, 1 := Push1(j1), 2 := PLoop(j2)]
    ensures |p'.sys.q.slots| > 0 && Steps(p, 2, 8) == Steps(p', 2, 5) && p'.sys.q == p.sys.q && p'.enq == p.enq
    ensures p'.sys.ops == map[1 := PushWrite(j1, 0), 2 := PushCas(j2, 1)] && p'.pcs == map[0 := Loop, 1 := Push1(j1), 2 := Push1(j2)]
  {
    hide Act, Go, Steps;
    var op, pcs := PushWrite(j1, 0), map[0 := Loop, 1 := Push1(j1), 2 := Push1(j2)];
    CallGo(p, 2);
    Walk(p, 2, 7);
    var a1 := Go(p, 2);
    assert a1.pcs == pcs && a1.sys.ops == map[1 := op, 2 := PushStart(j2)];
    QueueGo(a1, 2);
    Walk(a1, 2, 6);
    var a2 := Go(a1, 2);
    assert a2.pcs == pcs && a2.sys.ops == map[1 := op, 2 := PushCheck(j2, 1)];
    QueueGo(a2, 2);
    Walk(a2, 2, 5);
    p' := Go(a2, 2);
    assert p'.pcs == pcs && p'.sys.ops == map[1 := op, 2 := PushCas(j2, 1)];
  }

  lemma SecondJobStored<J>(p: Pool<J>, j1: J, j2: J) returns (p': Pool<J>)
    requires p.sys.q == Queue([Slot(None, 0, -1), Slot(None, 1, -1)], 1, 0)
    requires p.sys.ops == map[1 := PushWrite(j1, 0), 2 := PushCas(j2, 1)] && p.pcs == map[0 := Loop, 1 := Push1(j1), 2 := Push1(j2)]
    ensures |p'.sys.q.slots| > 0 && Steps(p, 2, 5) == Steps(p', 2, 2)
    ensures p'.sys.q == Queue([Slot(None, 0, -1), Slot(Some(j2), 1, 1)], 2, 0) && p'.enq == p.enq
    ensures p'.sys.ops == map[1 := PushWrite(j1, 0), 2 := PushDone(1)] && p'.pcs == map[0 := Loop, 1 := Push1(j1), 2 := EnqSet1]
  {
    hide Act, Go, Steps;
    var op, pcs := PushWrite(j1, 0), map[0 := Loop, 1 := Push1(j1), 2 := Push1(j2)];
    QueueGo(p, 2);
    Walk(p, 2, 4);
    var a1 := Go(p, 2);
    assert a1.pcs == pcs && a1.sys.ops == map[1 := op, 2 := PushWrite(j2, 1)];
    QueueGo(a1, 2);
    Walk(a1, 2, 3);
    var a2 := Go(a1, 2);
    assert a2.pcs == pcs && a2.sys.ops == map[1 := op, 2 := PushPublish(j2, 1)];
    assert a2.sys.q.slots == [Slot(None, 0, -1), Slot(Some(j2), 1, -1)];
    QueueGo(a2, 2);
    Walk(a2, 2, 2);
    p' := Go(a2, 2);
    assert p'.pcs == pcs[2 := EnqSet1] && p'.sys.ops == map[1 := op, 2 := PushDone(1)];
    assert p'.sys.q.slots == [Slot(None, 0, -1), Slot(Some(j2), 1, 1)];
  }

  lemma WorkerBlocks<J>(p: Pool<J>, j1: J, j2: J)
    requires p.sys.q == Queue([Slot(None, 0, -1), Slot(Some(j2), 1, 1)], 2, 0)
    requires p.enq == FastSignal(true, true) && p.pcs == map[0 := Loop, 1 := Push1(j1), 2 := Outside]
    requires p.sys.ops == map[1 := PushWrite(j1, 0), 2 := PushDone(1)]
    ensures var p' := Steps(p, 0, 9);
            p'.sys.q == p.sys.q && p'.enq == FastSignal(false, false) && p'.pcs == map[0 := Blocked, 1 := Push1(j1), 2 := Outside]
  {
    hide Act, Go, Steps, Step, LockFreeQueue.Step, AfterOp;
    var a3 := PopRefused(p, 9);
    var a5 := SignalReset(a3, 6);
    RetryBlocks(a5);
    assert p.pcs[0 := Blocked] == map[0 := Blocked, 1 := Push1(j1), 2 := Outside];
  }

  lemma RetryBlocks<J>(p: Pool<J>)
    requires |p.sys.q.slots| > 0 && 0 in p.pcs && Idle(p.sys, 0) && !FrontPublished(p) && p.pcs[0].Retry? && !p.enq.state
    ensures var p' := Steps(p, 0, 4); p'.sys.q == p.sys.q && p'.enq == p.enq && p'.pcs == p.pcs[0 := Blocked]
  {
    hide Act, Go, Steps, Step, LockFreeQueue.Step, AfterOp;
    var a3 := PopRefused(p, 4);
    FlagGo(a3, 0);
    Walk(a3, 0, 0);
    Walk(Go(a3, 0), 0, 0);
  }

  lemma SignalReset<J>(p: Pool<J>, k: nat) returns (p': Pool<J>)
    requires |p.sys.q.slots| > 0 && 0 in p.pcs && p.pcs[0].Reset1? && p.enq.state && k >= 2
    ensures p' == p.(enq := FastSignal(false, false), pcs := p.pcs[0 := Retry]) && Steps(p, 0, k) == Steps(p', 0, k - 2)
  {
    hide Act, Go, Steps, Step;
    FlagGo(p, 0);
    Walk(p, 0, k - 1);
    var a := Go(p, 0);
    FlagGo(a, 0);
    Walk(a, 0, k - 2);
    p' := Go(a, 0);
    assert p'.pcs == p.pcs[0 := Retry];
  }

  /** A `pop` that finds the front unpublished takes three steps. */
  lemma PopRefused<J>(p: Pool<J>, k: nat) returns (p': Pool<J>)
    requires |p.sys.q.slots| > 0 && 0 in p.pcs && Idle(p.sys, 0) && !FrontPublished(p) && k >= 3
    requires p.pcs[0].Loop? || p.pcs[0].Retry?
    ensures |p'.sys.q.slots| > 0 && Steps(p, 0, k) == Steps(p', 0, k - 3) && p'.sys.q == p.sys.q && p'.enq == p.enq
    ensures p'.pcs == p.pcs[0 := if p.pcs[0].Loop? then Reset1 else WaitLoad] && p'.sys.ops == p.sys.ops[0 := PopFail]
  {
    hide Act, Go, Steps;
    CallGo(p, 0);
    Walk(p, 0, k - 1);
    var a1 := Go(p, 0);
    QueueGo(a1, 0);
    Walk(a1, 0, k - 2);
    var a2 := Go(a1, 0);
    QueueGo(a2, 0);
    Walk(a2, 0, k - 3);
    p' := Go(a2, 0);
  }

  /** The slot of the front ticket serves that ticket while the ticket is queued. */
  lemma FrontSlot<J>(s: System<J>)
    requires Inv(s) && s.q.head < s.q.tail
    ensures s.q.slots[s.q.head % |s.q.slots|].tail == s.q.head
  {
    var n := |s.q.slots|;
    var k := s.q.slots[s.q.head % n].tail;
    assert StampsOk(s, s.q.head % n) && HasOwner(s, s.q.head % n);
    if -n < s.q.head - k < n { SameRemainder(s.q.head, k, n); }
  }

  // ---- every job runs once ----

  /** The worker has popped the ticket and not started the job. */
  predicate Holds<J>(pc: Pc<J>, h: nat) {
    (pc.DeqSet1? || pc.DeqSet2?) && pc.h == h
  }

  ghost predicate Starts<J>(p: Pool<J>) {
    && (forall i, j :: 0 <= i < j < |p.ran| ==> p.ran[i] != p.ran[j])
    && (forall h :: h in p.ran ==> h in p.sys.returned)
    && (forall h :: h in p.sys.returned ==> h in p.ran || exists tid :: tid in p.pcs && Holds(p.pcs[tid], h))
    && (forall t1, t2, h :: t1 in p.pcs && t2 in p.pcs && Holds(p.pcs[t1], h) && Holds(p.pcs[t2], h) ==> t1 == t2)
    && (forall tid :: tid in p.pcs ==> TicketHeld(p, p.pcs[tid]))
  }

  ghost predicate TicketHeld<J>(p: Pool<J>, pc: Pc<J>) {
    && (pc.DeqSet1? || pc.DeqSet2? ==> pc.h in p.sys.returned && pc.job == p.sys.returned[pc.h] && pc.h !in p.ran)
    && (pc.Running? ==> pc.h in p.sys.returned && pc.job == p.sys.returned[pc.h] && pc.h in p.ran)
  }

  /** What one step of a queue operation can do to the returned tickets. */
  lemma ReturnedAdvance<J>(s: System<J>, tid: nat)
    requires Inv(s) && tid in s.ops
    ensures var s', op' := Advance(s, tid), Advance(s, tid).ops[tid];
            if s.ops[tid].PopFree?
            then op'.PopDone? && op'.h !in s.returned && s'.returned == s.returned[op'.h := op'.r]
            else s'.returned == s.returned && (op'.PopDone? ==> s.ops[tid] == op')
  {
    assert OpOk(s, s.ops[tid]);
    if s.ops[tid].PopFree? { assert TicketOk(s, s.ops[tid].h); }
  }

  /** What one step of a thread can do to its job and the histories. */
  lemma JobStep<J>(p: Pool<J>, tid: nat)
    requires PoolInv(p) && tid in p.pcs
    ensures var p' := Step(p, tid); tid in p'.pcs && JobCases(p, p', p.pcs[tid], p'.pcs[tid])
  {
    assert Wired(p, tid);
    if InQueue(p.pcs[tid]) {
      QueueStepWired(p, tid);
      QueueJobStep(p, tid);
    }
  }

  ghost predicate JobCases<J>(p: Pool<J>, p': Pool<J>, pc: Pc<J>, pc': Pc<J>) {
    // a popped job is taken over
    || (pc'.DeqSet1? && pc'.h !in p.sys.returned && p'.ran == p.ran
        && p'.sys.returned == p.sys.returned[pc'.h := pc'.job] && !pc.DeqSet1? && !pc.DeqSet2?)
    // the worker keeps it while it signals, then starts it
    || (pc.DeqSet1? && pc' == DeqSet2(pc.h, pc.job) && p'.ran == p.ran && p'.sys.returned == p.sys.returned)
    || ((pc.DeqSet1? || pc.DeqSet2?) && pc' == Running(pc.h, pc.job) && p'.ran == p.ran + [pc.h]
        && p'.sys.returned == p.sys.returned)
    // nothing happens to any job
    || (!pc.DeqSet1? && !pc.DeqSet2? && !pc'.DeqSet1? && !pc'.DeqSet2? && !pc'.Running?
        && p'.ran == p.ran && p'.sys.returned == p.sys.returned)
  }

  lemma QueueJobStep<J>(p: Pool<J>, tid: nat)
    requires PoolInv(p) && tid in p.pcs && InQueue(p.pcs[tid])
    ensures var p' := QueueStep(p, tid); tid in p'.pcs && JobCases(p, p', p.pcs[tid], p'.pcs[tid])
  {
    hide Inv, Advance;
    assert Wired(p, tid);
    ReturnedAdvance(p.sys, tid);
    CallGoesOn(p.sys, tid);
  }

  lemma StartsStep<J>(p: Pool<J>, tid: nat)
    requires PoolInv(p) && Starts(p) && tid in p.pcs
    ensures Starts(Step(p, tid))
  {
    hide Starts, JobCases, Step, Inv, Wired;
    JobStep(p, tid);
    StepOthers(p, tid);
    StartsCarry(p, Step(p, tid), tid);
  }

  lemma StartsCarry<J>(p: Pool<J>, p': Pool<J>, tid: nat)
    requires Starts(p) && tid in p.pcs && p'.pcs.Keys == p.pcs.Keys
    requires forall id :: id in p.pcs && id != tid ==> p'.pcs[id] == p.pcs[id]
    requires JobCases(p, p', p.pcs[tid], p'.pcs[tid])
    ensures Starts(p')
  {
    assert TicketHeld(p, p.pcs[tid]);
    forall id | id in p'.pcs ensures TicketHeld(p', p'.pcs[id]) {
      assert TicketHeld(p, p.pcs[id]);
      if id != tid && (p.pcs[id].DeqSet1? || p.pcs[id].DeqSet2?) { assert Holds(p.pcs[id], p.pcs[id].h); }
      if p.pcs[tid].DeqSet1? || p.pcs[tid].DeqSet2? { assert Holds(p.pcs[tid], p.pcs[tid].h); }
    }
    forall h | h in p'.sys.returned ensures h in p'.ran || exists id :: id in p'.pcs && Holds(p'.pcs[id], h) {
      StartedOrHeld(p, p', tid, h);
    }
    forall t1, t2, h | t1 in p'.pcs && t2 in p'.pcs && Holds(p'.pcs[t1], h) && Holds(p'.pcs[t2], h) ensures t1 == t2 {
      assert TicketHeld(p, p.pcs[t1]) && TicketHeld(p, p.pcs[t2]);
      if Holds(p.pcs[t1], h) && Holds(p.pcs[t2], h) {}
    }
  }

  lemma StartedOrHeld<J>(p: Pool<J>, p': Pool<J>, tid: nat, h: nat)
    requires Starts(p) && tid in p.pcs && p'.pcs.Keys == p.pcs.Keys
    requires forall id :: id in p.pcs && id != tid ==> p'.pcs[id] == p.pcs[id]
    requires JobCases(p, p', p.pcs[tid], p'.pcs[tid])
    requires h in p'.sys.returned
    ensures h in p'.ran || exists id :: id in p'.pcs && Holds(p'.pcs[id], h)
  {
    if h !in p.sys.returned {
      assert Holds(p'.pcs[tid], h);
    } else if h !in p.ran {
      var id :| id in p.pcs && Holds(p.pcs[id], h);
      if id != tid { assert Holds(p'.pcs[id], h); }
      else if p'.pcs[tid].DeqSet2? { assert Holds(p'.pcs[tid], h); }
      else { assert (p.ran + [h])[|p.ran|] == h; }
    } else {
      assert h in p.ran + [h];
    }
  }

  lemma {:induction false} EveryRunStarts<J>(capacity: nat, workers: set<nat>, actions: seq<Action<J>>)
    requires capacity > 0
    ensures var p := Interleave(capacity, workers, actions); PoolInv(p) && Starts(p)
  {
    if actions == [] {
      ConstructedPool<J>(capacity, workers);
    } else {
      EveryRunStarts(capacity, workers, actions[..|actions| - 1]);
      var p, a := Interleave(capacity, workers, actions[..|actions| - 1]), actions[|actions| - 1];
      ActPool(p, a);
      if a.Run? && a.tid in p.pcs {
        StartsStep(p, a.tid);
      } else if a.Submit? && Act(p, a) != p {
        StartsSubmit(p, a.tid, a.job);
      }
    }
  }

  lemma StartsSubmit<J>(p: Pool<J>, tid: nat, job: J)
    requires Starts(p) && (tid !in p.pcs || p.pcs[tid].Outside?)
    ensures Starts(p.(pcs := p.pcs[tid := PLoop(job)]))
  {
    var p' := p.(pcs := p.pcs[tid := PLoop(job)]);
    forall h | h in p'.sys.returned && h !in p'.ran ensures exists id :: id in p'.pcs && Holds(p'.pcs[id], h) {
      var id :| id in p.pcs && Holds(p.pcs[id], h);
      assert id in p'.pcs && Holds(p'.pcs[id], h);
    }
    forall id | id in p'.pcs ensures TicketHeld(p', p'.pcs[id]) {
      if id != tid { assert TicketHeld(p, p.pcs[id]); }
    }
  }

  /**
   In every run each popped job is started at most once, by a worker that runs exactly the job
   its ticket was pushed for, and none gets lost on the way: a ticket taken from the queue is
   inside a `pop`, held by a worker that is about to start it, or started.
   */
  lemma JobsRunOnce<J>(capacity: nat, workers: set<nat>, actions: seq<Action<J>>)
    requires capacity > 0
    ensures var p := Interleave(capacity, workers, actions);
            && p.sys.q.head <= |p.sys.log|
            && (forall i, j :: 0 <= i < j < |p.ran| ==> p.ran[i] != p.ran[j])
            && (forall h :: h in p.ran ==> h < p.sys.q.head)
            && (forall tid :: tid in p.pcs && p.pcs[tid].Running? ==>
                  p.pcs[tid].h in p.ran && p.pcs[tid].h < p.sys.q.head && p.pcs[tid].job == p.sys.log[p.pcs[tid].h])
            && (forall h: nat :: h < p.sys.q.head ==>
                  || h in p.ran
                  || (exists tid :: tid in p.pcs && Holds(p.pcs[tid], h))
                  || (exists tid :: tid in p.sys.ops && Owned(p.sys.ops[tid]) == Some(h)))
  {
    EveryRunStarts(capacity, workers, actions);
    var p := Interleave(capacity, workers, actions);
    var s := p.sys;
    forall tid | tid in p.pcs && p.pcs[tid].Running?
      ensures p.pcs[tid].h in p.ran && p.pcs[tid].h < s.q.head && p.pcs[tid].job == s.log[p.pcs[tid].h] {
      assert TicketHeld(p, p.pcs[tid]);
      assert TicketOk(s, p.pcs[tid].h);
    }
    forall h: nat | h < s.q.head && h !in s.returned ensures exists tid :: tid in s.ops && Owned(s.ops[tid]) == Some(h) {
      assert TicketOk(s, h) && StampsOk(s, h % capacity) && HasOwner(s, h % capacity);
    }
  }
}
