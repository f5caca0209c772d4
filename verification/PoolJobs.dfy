/**
 What becomes of the jobs handed to the pool: `run` comes back only with its job in the queue, and
 every job is exactly once on its way.
 */
module PoolJobs {
  import opened Basics
  import opened LockFreeQueue
  import opened ThreadPool

  /**
   The history of a run: all jobs handed to `run`, in order; for each producer the number of its
   latest one; and for each push ticket the number of the job it was won for.
   */
  datatype Ledger<J> = Ledger(jobs: seq<J>, latest: map<nat, nat>, tickets: seq<nat>)

  function Booked<J>(capacity: nat, workers: set<nat>, actions: seq<ThreadPool.Action<J>>): Ledger<J>
    requires capacity > 0
  {
    if actions == [] then Ledger([], map[], [])
    else
      var before := actions[..|actions| - 1];
      Book(Booked(capacity, workers, before), ThreadPool.Interleave(capacity, workers, before), actions[|actions| - 1])
  }

  /** What the action `a` in state `p` adds to the history. */
  function Book<J>(l: Ledger<J>, p: Pool<J>, a: ThreadPool.Action<J>): Ledger<J>
    requires |p.sys.q.slots| > 0
  {
    match a
    case Submit(tid, job) =>
      if tid !in p.pcs || p.pcs[tid].Outside? then l.(jobs := l.jobs + [job], latest := l.latest[tid := |l.jobs|]) else l
    case Run(tid) =>
      if |Act(p, a).sys.log| > |p.sys.log| && tid in l.latest then l.(tickets := l.tickets + [l.latest[tid]]) else l
  }

  /** The producer is in the loop of `run` and has no ticket yet. */
  predicate Looking<J>(p: Pool<J>, tid: nat) {
    && tid in p.pcs
    && match p.pcs[tid]
       case PLoop(_) => true
       case PReset1(_) => true
       case PReset2(_) => true
       case PRetry(_) => true
       case PWaitLoad(_) => true
       case PBlocked(_) => true
       case Push1(_) => tid in p.sys.ops && NoTicket(p.sys.ops[tid])
       case Push2(_) => tid in p.sys.ops && NoTicket(p.sys.ops[tid])
       case _ => false
  }

  predicate NoTicket<J>(op: Op<J>) {
    op.PushStart? || op.PushCheck? || op.PushCas?
  }

  /** The ticket that a `push` has won. */
  function TicketOf<J>(op: Op<J>): Option<nat> {
    match op
    case PushWrite(_, t) => Some(t)
    case PushPublish(_, t) => Some(t)
    case PushDone(t) => Some(t)
    case _ => None
  }

  /** A producer's latest job is in its hands, or stands for the ticket that it has won. */
  ghost predicate Accounted<J>(p: Pool<J>, l: Ledger<J>, tid: nat)
    requires tid in p.pcs
  {
    if IsWorker(p.pcs[tid]) then tid !in l.latest
    else
      && tid in l.latest && l.latest[tid] < |l.jobs|
      && if Looking(p, tid) then JobOf(p.pcs[tid]) == Some(l.jobs[l.latest[tid]]) && l.latest[tid] !in l.tickets
         else tid in p.sys.ops && Stands(l, TicketOf(p.sys.ops[tid]), l.latest[tid])
  }

  ghost predicate Stands<J>(l: Ledger<J>, t: Option<nat>, i: nat) {
    t.Some? && t.value < |l.tickets| && l.tickets[t.value] == i
  }

  /** The job that a producer in its loop carries. */
  function JobOf<J>(pc: Pc<J>): Option<J> {
    match pc
    case PLoop(j) => Some(j)
    case PReset1(j) => Some(j)
    case PReset2(j) => Some(j)
    case PRetry(j) => Some(j)
    case PWaitLoad(j) => Some(j)
    case PBlocked(j) => Some(j)
    case Push1(j) => Some(j)
    case Push2(j) => Some(j)
    case _ => None
  }

  /** Tickets stand for the jobs in the queue's log, each for another one. */
  ghost predicate TicketsOk<J>(p: Pool<J>, l: Ledger<J>) {
    && |l.tickets| == |p.sys.log|
    && (forall t :: 0 <= t < |l.tickets| ==> l.tickets[t] < |l.jobs| && l.jobs[l.tickets[t]] == p.sys.log[t])
    && Distinct(l.tickets)
  }

  ghost predicate Apart<J>(l: Ledger<J>) {
    forall t1, t2 :: t1 in l.latest && t2 in l.latest && l.latest[t1] == l.latest[t2] ==> t1 == t2
  }

  /** Some producer looks for room for job `i`. */
  ghost predicate Offered<J>(p: Pool<J>, l: Ledger<J>, i: nat) {
    exists tid :: tid in l.latest && l.latest[tid] == i && Looking(p, tid)
  }

  ghost predicate BooksOk<J>(p: Pool<J>, l: Ledger<J>) {
    && TicketsOk(p, l) && Apart(l) && l.latest.Keys <= p.pcs.Keys
    && (forall tid :: tid in p.pcs ==> Accounted(p, l, tid))
    && (forall i: nat :: i < |l.jobs| ==> i in l.tickets || Offered(p, l, i))
  }

  // ---- what one step does ----

  /** The step won a ticket for the producer's job, or left the log and the producer's standing alone. */
  ghost predicate Moves<J>(p: Pool<J>, p': Pool<J>, tid: nat)
    requires tid in p.pcs && tid in p'.pcs
  {
    var pc, pc' := p.pcs[tid], p'.pcs[tid];
    && (IsWorker(pc) <==> IsWorker(pc'))
    && if Looking(p, tid) && !Looking(p', tid) then
         JobOf(pc).Some? && p'.sys.log == p.sys.log + [JobOf(pc).value]
         && tid in p'.sys.ops && TicketOf(p'.sys.ops[tid]) == Some(|p.sys.log|)
       else
         && p'.sys.log == p.sys.log && (Looking(p, tid) <==> Looking(p', tid))
         && (Looking(p, tid) ==> JobOf(pc') == JobOf(pc))
         && (!Looking(p, tid) && !IsWorker(pc) && tid in p.sys.ops ==>
               tid in p'.sys.ops && TicketOf(p'.sys.ops[tid]) == TicketOf(p.sys.ops[tid]))
  }

  lemma QueueMoves<J>(p: Pool<J>, tid: nat)
    requires PoolInv(p) && tid in p.pcs && InQueue(p.pcs[tid])
    ensures tid in QueueStep(p, tid).pcs && Moves(p, QueueStep(p, tid), tid)
  {
    hide Inv, Advance, Moves, QueueStep;
    assert Wired(p, tid);
    if IsWorker(p.pcs[tid]) { PopMoves(p, tid); } else { PushMoves(p, tid); }
  }

  lemma PopMoves<J>(p: Pool<J>, tid: nat)
    requires PoolInv(p) && tid in p.pcs && (p.pcs[tid].Pop1? || p.pcs[tid].Pop2?)
    ensures tid in QueueStep(p, tid).pcs && Moves(p, QueueStep(p, tid), tid)
  {
    hide Inv, Advance;
    assert Wired(p, tid);
    CallGoesOn(p.sys, tid);
    WinsTicket(p.sys, tid);
  }

  lemma PushMoves<J>(p: Pool<J>, tid: nat)
    requires PoolInv(p) && tid in p.pcs && (p.pcs[tid].Push1? || p.pcs[tid].Push2?)
    ensures tid in QueueStep(p, tid).pcs && Moves(p, QueueStep(p, tid), tid)
  {
    hide Inv, Advance;
    assert Wired(p, tid);
    CallGoesOn(p.sys, tid);
    WinsTicket(p.sys, tid);
  }

  /** Winning a ticket is the only step that logs a value. */
  lemma WinsTicket<J>(s: System<J>, tid: nat)
    requires Inv(s) && tid in s.ops
    ensures var op, op', s' := s.ops[tid], Advance(s, tid).ops[tid], Advance(s, tid);
            if NoTicket(op) && TicketOf(op').Some? then s'.log == s.log + [op.x] && TicketOf(op') == Some(|s.log|)
            else s'.log == s.log && (TicketOf(op).Some? ==> TicketOf(op') == TicketOf(op)) && (NoTicket(op) ==> NoTicket(op') || op'.PushFail?)
  {
    assert OpOk(s, s.ops[tid]);
  }

  lemma StepMoves<J>(p: Pool<J>, tid: nat)
    requires PoolInv(p) && tid in p.pcs
    ensures tid in ThreadPool.Step(p, tid).pcs && Moves(p, ThreadPool.Step(p, tid), tid)
  {
    hide Inv, Advance;
    assert Wired(p, tid);
    if InQueue(p.pcs[tid]) {
      QueueStepWired(p, tid);
      QueueMoves(p, tid);
    }
  }

  // ---- the books stay right ----

  lemma StepBooked<J>(p: Pool<J>, l: Ledger<J>, tid: nat)
    requires PoolInv(p) && BooksOk(p, l) && tid in p.pcs
    ensures BooksOk(Act(p, ThreadPool.Action.Run(tid)), Book(l, p, ThreadPool.Action.Run(tid)))
  {
    hide ThreadPool.Step, BooksOk, Moves, PoolInv, Accounted;
    PoolParts(p);
    var p' := ThreadPool.Step(p, tid);
    StepMoves(p, tid);
    StepOthers(p, tid);
    StepQueue(p, tid);
    LogGrows(p, p', tid);
    if Looking(p, tid) && !Looking(p', tid) {
      Won(p, p', l, tid);
    } else {
      NotWon(p, p', l, tid);
    }
  }

  lemma PoolParts<J>(p: Pool<J>)
    requires PoolInv(p)
    ensures |p.sys.q.slots| > 0
    ensures forall id :: id in p.sys.ops ==> id in p.pcs
  {
  }

  lemma LogGrows<J>(p: Pool<J>, p': Pool<J>, tid: nat)
    requires tid in p.pcs && tid in p'.pcs && Moves(p, p', tid)
    ensures |p'.sys.log| > |p.sys.log| <==> Looking(p, tid) && !Looking(p', tid)
  {
  }

  /** The threads that do not move. */
  ghost predicate OthersSame<J>(p: Pool<J>, p': Pool<J>, tid: nat) {
    && p'.pcs.Keys == p.pcs.Keys
    && (forall id :: id in p.pcs && id != tid ==> p'.pcs[id] == p.pcs[id])
    && (forall id :: id in p.sys.ops && id != tid ==> id in p'.sys.ops && p'.sys.ops[id] == p.sys.ops[id])
    && (forall id :: id in p'.sys.ops && id != tid ==> id in p.sys.ops)
  }

  lemma OtherLooks<J>(p: Pool<J>, p': Pool<J>, tid: nat, id: nat)
    requires OthersSame(p, p', tid) && id != tid
    ensures Looking(p', id) <==> Looking(p, id)
  {
  }

  lemma Won<J>(p: Pool<J>, p': Pool<J>, l: Ledger<J>, tid: nat)
    requires BooksOk(p, l) && tid in p.pcs && OthersSame(p, p', tid) && Moves(p, p', tid)
    requires Looking(p, tid) && !Looking(p', tid)
    ensures tid in l.latest && BooksOk(p', l.(tickets := l.tickets + [l.latest[tid]]))
  {
    assert Accounted(p, l, tid);
    var l' := l.(tickets := l.tickets + [l.latest[tid]]);
    forall id | id in p'.pcs ensures Accounted(p', l', id) {
      assert Accounted(p, l, id);
      if id != tid { OtherLooks(p, p', tid, id); }
    }
    forall i: nat | i < |l'.jobs| && i !in l'.tickets ensures Offered(p', l', i) {
      assert l'.tickets[|l.tickets|] == l.latest[tid];
      assert forall t :: 0 <= t < |l.tickets| ==> l'.tickets[t] == l.tickets[t];
      assert i !in l.tickets;
      var id :| id in l.latest && l.latest[id] == i && Looking(p, id);
      OtherLooks(p, p', tid, id);
    }
  }

  lemma NotWon<J>(p: Pool<J>, p': Pool<J>, l: Ledger<J>, tid: nat)
    requires BooksOk(p, l) && tid in p.pcs && OthersSame(p, p', tid) && Moves(p, p', tid)
    requires !(Looking(p, tid) && !Looking(p', tid))
    ensures BooksOk(p', l)
  {
    forall id | id in p'.pcs ensures Accounted(p', l, id) {
      assert Accounted(p, l, id);
      if id != tid { OtherLooks(p, p', tid, id); }
    }
    forall i: nat | i < |l.jobs| && i !in l.tickets ensures Offered(p', l, i) {
      var id :| id in l.latest && l.latest[id] == i && Looking(p, id);
      if id != tid { OtherLooks(p, p', tid, id); }
    }
  }

  lemma SubmitAccounted<J>(p: Pool<J>, l: Ledger<J>, tid: nat, job: J, id: nat)
    requires PoolInv(p) && BooksOk(p, l) && (tid !in p.pcs || p.pcs[tid].Outside?)
    ensures var p' := p.(pcs := p.pcs[tid := PLoop(job)]);
            id in p'.pcs ==> Accounted(p', l.(jobs := l.jobs + [job], latest := l.latest[tid := |l.jobs|]), id)
  {
    hide PoolInv, Distinct;
    if id in p.pcs { assert Accounted(p, l, id); }
  }

  lemma SubmitOffered<J>(p: Pool<J>, l: Ledger<J>, tid: nat, job: J, i: nat)
    requires BooksOk(p, l) && (tid !in p.pcs || p.pcs[tid].Outside?) && i < |l.jobs| && i !in l.tickets
    ensures Offered(p.(pcs := p.pcs[tid := PLoop(job)]), l.(jobs := l.jobs + [job], latest := l.latest[tid := |l.jobs|]), i)
  {
    hide Accounted, TicketsOk, Apart;
    var p' := p.(pcs := p.pcs[tid := PLoop(job)]);
    var l' := l.(jobs := l.jobs + [job], latest := l.latest[tid := |l.jobs|]);
    var id :| id in l.latest && l.latest[id] == i && Looking(p, id);
    assert Looking(p', id) && l'.latest[id] == i;
  }

  lemma SubmitBooked<J>(p: Pool<J>, l: Ledger<J>, tid: nat, job: J)
    requires PoolInv(p) && BooksOk(p, l) && (tid !in p.pcs || p.pcs[tid].Outside?)
    ensures BooksOk(p.(pcs := p.pcs[tid := PLoop(job)]), l.(jobs := l.jobs + [job], latest := l.latest[tid := |l.jobs|]))
  {
    hide PoolInv, Distinct, Looking, Accounted, Offered;
    var p' := p.(pcs := p.pcs[tid := PLoop(job)]);
    var l' := l.(jobs := l.jobs + [job], latest := l.latest[tid := |l.jobs|]);
    forall id | id in l.latest ensures l.latest[id] < |l.jobs| { KnownJob(p, l, id); }
    forall id | id in p'.pcs ensures Accounted(p', l', id) { SubmitAccounted(p, l, tid, job, id); }
    forall i: nat | i < |l'.jobs| && i !in l'.tickets ensures Offered(p', l', i) {
      if i == |l.jobs| { JustOffered(p, l, tid, job); } else { SubmitOffered(p, l, tid, job, i); }
    }
  }

  lemma KnownJob<J>(p: Pool<J>, l: Ledger<J>, id: nat)
    requires BooksOk(p, l) && id in l.latest
    ensures l.latest[id] < |l.jobs|
  {
    assert Accounted(p, l, id);
  }

  lemma JustOffered<J>(p: Pool<J>, l: Ledger<J>, tid: nat, job: J)
    ensures Offered(p.(pcs := p.pcs[tid := PLoop(job)]), l.(jobs := l.jobs + [job], latest := l.latest[tid := |l.jobs|]), |l.jobs|)
  {
    var p' := p.(pcs := p.pcs[tid := PLoop(job)]);
    var l' := l.(jobs := l.jobs + [job], latest := l.latest[tid := |l.jobs|]);
    assert tid in l'.latest && l'.latest[tid] == |l.jobs| && Looking(p', tid);
  }

  lemma {:induction false} EveryRunBooked<J>(capacity: nat, workers: set<nat>, actions: seq<ThreadPool.Action<J>>)
    requires capacity > 0
    ensures PoolInv(ThreadPool.Interleave(capacity, workers, actions))
    ensures BooksOk(ThreadPool.Interleave(capacity, workers, actions), Booked(capacity, workers, actions))
  {
    hide BooksOk, PoolInv;
    if actions == [] {
      ConstructedPool<J>(capacity, workers);
      NothingBooked<J>(capacity, workers);
    } else {
      var before, a := actions[..|actions| - 1], actions[|actions| - 1];
      EveryRunBooked(capacity, workers, before);
      var p, l := ThreadPool.Interleave(capacity, workers, before), Booked(capacity, workers, before);
      ActPool(p, a);
      if a.Run? && a.tid in p.pcs {
        StepBooked(p, l, a.tid);
      } else if a.Submit? && (a.tid !in p.pcs || p.pcs[a.tid].Outside?) {
        SubmitBooked(p, l, a.tid, a.job);
      }
    }
  }

  lemma NothingBooked<J>(capacity: nat, workers: set<nat>)
    requires capacity > 0
    ensures BooksOk(ThreadPool.Constructed<J>(capacity, workers), Booked<J>(capacity, workers, []))
  {
  }

  // ---- what holds in every run ----

  lemma HoldsTicket<J>(p: Pool<J>, l: Ledger<J>, tid: nat)
    requires PoolInv(p) && BooksOk(p, l) && tid in p.pcs
    requires p.pcs[tid].Outside? || p.pcs[tid].EnqSet1? || p.pcs[tid].EnqSet2?
    ensures tid in p.sys.ops && p.sys.ops[tid].PushDone? && |l.tickets| == |p.sys.log|
    ensures tid in l.latest && l.latest[tid] < |l.jobs| && Stands(l, Some(p.sys.ops[tid].t), l.latest[tid])
    ensures p.sys.log[p.sys.ops[tid].t] == l.jobs[l.latest[tid]]
    ensures forall u :: 0 <= u < |l.tickets| && u != p.sys.ops[tid].t ==> l.tickets[u] != l.latest[tid]
  {
    hide Inv;
    assert Wired(p, tid) && Accounted(p, l, tid);
  }

  /**
   A producer that has left the loop of `run` has its job in the queue's log, under a ticket that
   stands for no other job.
   */
  lemma RunDelivers<J>(capacity: nat, workers: set<nat>, actions: seq<ThreadPool.Action<J>>, tid: nat)
    requires capacity > 0
    ensures var p, l := ThreadPool.Interleave(capacity, workers, actions), Booked(capacity, workers, actions);
            |l.tickets| == |p.sys.log| &&
            (tid in p.pcs && (p.pcs[tid].Outside? || p.pcs[tid].EnqSet1? || p.pcs[tid].EnqSet2?) ==>
              && tid in p.sys.ops && p.sys.ops[tid].PushDone?
              && tid in l.latest && l.latest[tid] < |l.jobs|
              && var t := p.sys.ops[tid].t;
                 t < |p.sys.log| && p.sys.log[t] == l.jobs[l.latest[tid]] && Stands(l, Some(t), l.latest[tid])
                 && forall u :: 0 <= u < |l.tickets| && u != t ==> l.tickets[u] != l.latest[tid])
  {
    hide Accounted, Wired, Stands;
    EveryRunBooked(capacity, workers, actions);
    var p, l := ThreadPool.Interleave(capacity, workers, actions), Booked(capacity, workers, actions);
    if tid in p.pcs && (p.pcs[tid].Outside? || p.pcs[tid].EnqSet1? || p.pcs[tid].EnqSet2?) {
      HoldsTicket(p, l, tid);
    }
  }

  /** Each job handed to `run` is either still with one producer that looks for room, or in the log once. */
  lemma EveryJobOnce<J>(capacity: nat, workers: set<nat>, actions: seq<ThreadPool.Action<J>>, i: nat)
    requires capacity > 0 && i < |Booked(capacity, workers, actions).jobs|
    ensures var p, l := ThreadPool.Interleave(capacity, workers, actions), Booked(capacity, workers, actions);
            && |l.tickets| == |p.sys.log| == p.sys.q.tail
            && (i in l.tickets <==> !Offered(p, l, i))
            && (forall t, u :: 0 <= t < |l.tickets| && 0 <= u < |l.tickets| && l.tickets[t] == i == l.tickets[u] ==> t == u)
            && (forall t :: 0 <= t < |l.tickets| && l.tickets[t] == i ==> p.sys.log[t] == l.jobs[i])
            && (forall id :: id in l.latest && l.latest[id] == i && Looking(p, id) ==> JobOf(p.pcs[id]) == Some(l.jobs[i]))
  {
    EveryRunBooked(capacity, workers, actions);
    var p, l := ThreadPool.Interleave(capacity, workers, actions), Booked(capacity, workers, actions);
    forall id | id in l.latest && Looking(p, id) ensures Accounted(p, l, id) {}
  }

  /**
   The way of job `i` through the pool: with a producer that looks for room, or in the queue, inside
   a `pop`, with a worker that is about to start it, or started. No job is started twice, and a
   worker runs the very job that was handed in.
   */
  lemma EveryJobRunsOnce<J>(capacity: nat, workers: set<nat>, actions: seq<ThreadPool.Action<J>>, i: nat)
    requires capacity > 0 && i < |Booked(capacity, workers, actions).jobs|
    ensures var p, l := ThreadPool.Interleave(capacity, workers, actions), Booked(capacity, workers, actions);
            && p.sys.q.head <= |l.tickets|
            && (Offered(p, l, i) || exists t :: 0 <= t < |l.tickets| && l.tickets[t] == i && Fate(p, t))
            && (forall a, b :: 0 <= a < b < |p.ran| ==> OtherJobs(l, p.ran[a], p.ran[b]))
            && (forall w :: w in p.pcs && p.pcs[w].Running? ==>
                  p.pcs[w].h < |l.tickets| && l.tickets[p.pcs[w].h] < |l.jobs| && p.pcs[w].job == l.jobs[l.tickets[p.pcs[w].h]])
  {
    hide ThreadPool.Interleave, Booked, PoolInv, Apart, Accounted;
    EveryRunBooked(capacity, workers, actions);
    JobsRunOnce(capacity, workers, actions);
    var p, l := ThreadPool.Interleave(capacity, workers, actions), Booked(capacity, workers, actions);
    StartedApart(p, l);
    if !Offered(p, l, i) {
      var t :| 0 <= t < |l.tickets| && l.tickets[t] == i;
      assert Fate(p, t);
    }
  }

  /** The two tickets stand for different jobs. */
  ghost predicate OtherJobs<J>(l: Ledger<J>, t: nat, u: nat) {
    t < |l.tickets| && u < |l.tickets| && l.tickets[t] != l.tickets[u]
  }

  lemma StartedApart<J>(p: Pool<J>, l: Ledger<J>)
    requires BooksOk(p, l) && p.sys.q.head <= |p.sys.log|
    requires (forall i, j :: 0 <= i < j < |p.ran| ==> p.ran[i] != p.ran[j]) && forall h :: h in p.ran ==> h < p.sys.q.head
    ensures forall a, b :: 0 <= a < b < |p.ran| ==> OtherJobs(l, p.ran[a], p.ran[b])
  {
    forall a, b | 0 <= a < b < |p.ran| ensures OtherJobs(l, p.ran[a], p.ran[b]) {
      assert p.ran[a] in p.ran && p.ran[b] in p.ran;
    }
  }

  /** Queued, inside a `pop`, about to be started, or started. */
  ghost predicate Fate<J>(p: Pool<J>, t: nat) {
    || t >= p.sys.q.head
    || (exists id :: id in p.sys.ops && Owned(p.sys.ops[id]) == Some(t))
    || (exists w :: w in p.pcs && Holds(p.pcs[w], t))
    || t in p.ran
  }
}
