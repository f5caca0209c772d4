/**
 The bounded multi-producer/multi-consumer ring of `Future<void>::Private::LockFreeQueue`,
 as interleaved atomic steps of any number of threads. Memory is sequentially consistent
 and tickets are unbounded naturals.
 */
module LockFreeQueue {
  import opened Basics

  /** One ring slot: the stored object (None while unconstructed) and its two stamps. */
  datatype Slot<T> = Slot(data: Option<T>, tail: int, head: int)

  /** The shared memory: the ring and the two ticket counters. */
  datatype Queue<T> = Queue(slots: seq<Slot<T>>, tail: nat, head: nat)

  /** Where one call of `push` or `pop` stands: the next atomic access it makes. */
  datatype Op<T> =
    | PushStart(x: T)              // read _tail
    | PushCheck(x: T, t: nat)      // compare the slot's tail stamp with the ticket
    | PushCas(x: T, t: nat)        // compare-and-swap _tail
    | PushWrite(x: T, t: nat)      // construct the object in the slot
    | PushPublish(x: T, t: nat)    // swap the ticket into the slot's head stamp
    | PushDone(t: nat)             // returned true
    | PushFail                     // returned false
    | PopStart                     // read _head
    | PopCheck(h: nat)             // compare the slot's head stamp with the ticket
    | PopCas(h: nat)               // compare-and-swap _head
    | PopRead(h: nat)              // copy the object out of the slot
    | PopDestroy(h: nat, r: T)     // destroy the object in the slot
    | PopFree(h: nat, r: T)        // swap the next ticket into the slot's tail stamp
    | PopDone(h: nat, r: T)        // returned true with the result
    | PopFail                      // returned false
    | Fault                        // constructed over, read or destroyed a wrong object

  /** The single atomic step a call makes next, on the shared memory it finds. */
  function Step<T>(q: Queue<T>, op: Op<T>): (Queue<T>, Op<T>)
    requires |q.slots| > 0
  {
    var n := |q.slots|;
    match op
    case PushStart(x) => (q, PushCheck(x, q.tail))
    case PushCheck(x, t) =>
      if q.slots[t % n].tail != t then (q, PushFail) else (q, PushCas(x, t))
    case PushCas(x, t) =>
      if q.tail == t then (q.(tail := t + 1), PushWrite(x, t)) else (q, PushCheck(x, q.tail))
    case PushWrite(x, t) =>
      if q.slots[t % n].data.Some? then (q, Fault)
      else (q.(slots := q.slots[t % n := q.slots[t % n].(data := Some(x))]), PushPublish(x, t))
    case PushPublish(x, t) =>
      (q.(slots := q.slots[t % n := q.slots[t % n].(head := t)]), PushDone(t))
    case PopStart => (q, PopCheck(q.head))
    case PopCheck(h) =>
      if q.slots[h % n].head != h then (q, PopFail) else (q, PopCas(h))
    case PopCas(h) =>
      if q.head == h then (q.(head := h + 1), PopRead(h)) else (q, PopCheck(q.head))
    case PopRead(h) =>
      if q.slots[h % n].data.None? then (q, Fault) else (q, PopDestroy(h, q.slots[h % n].data.value))
    case PopDestroy(h, r) =>
      if q.slots[h % n].data.None? then (q, Fault)
      else (q.(slots := q.slots[h % n := q.slots[h % n].(data := None)]), PopFree(h, r))
    case PopFree(h, r) =>
      (q.(slots := q.slots[h % n := q.slots[h % n].(tail := h + n)]), PopDone(h, r))
    case _ => (q, op)
  }

  /**
   All threads over one queue, with two history variables: the value each push ticket stands
   for, in the order the tickets were won, and the value each finished pop ticket returned.
   */
  datatype System<T> = System(q: Queue<T>, ops: map<nat, Op<T>>, log: seq<T>, returned: map<nat, T>)

  /** What a thread may do: start a call, or make the next step of the call it is in. */
  datatype Action<T> = CallPush(tid: nat, x: T) | CallPop(tid: nat) | Run(tid: nat)

  /** The thread is in no call. */
  predicate Idle<T>(s: System<T>, tid: nat) {
    tid in s.ops ==> s.ops[tid].PushDone? || s.ops[tid].PushFail? || s.ops[tid].PopDone? || s.ops[tid].PopFail?
  }

  /** Thread `tid` makes its next atomic step; the history variables follow the two swaps. */
  function Advance<T>(s: System<T>, tid: nat): System<T>
    requires |s.q.slots| > 0 && tid in s.ops
  {
    var op := s.ops[tid];
    var (q', op') := Step(s.q, op);
    System(q', s.ops[tid := op'],
           if op.PushCas? && op'.PushWrite? then s.log + [op.x] else s.log,
           if op.PopFree? then s.returned[op.h := op.r] else s.returned)
  }

  /** One action of one thread; an action its thread cannot take changes nothing. */
  function Apply<T>(s: System<T>, a: Action<T>): System<T>
    requires |s.q.slots| > 0
  {
    match a
    case CallPush(tid, x) => if Idle(s, tid) then s.(ops := s.ops[tid := PushStart(x)]) else s
    case CallPop(tid) => if Idle(s, tid) then s.(ops := s.ops[tid := PopStart]) else s
    case Run(tid) => if tid in s.ops then Advance(s, tid) else s
  }

  /** The constructor's memory: slot `i` waits for push ticket `i` and holds no pop ticket. */
  function Constructed<T>(capacity: nat): System<T> {
    System(Queue(seq(capacity, i => Slot(None, i, -1)), 0, 0), map[], [], map[])
  }

  /** The state after any interleaving of any number of threads. */
  function Interleave<T>(capacity: nat, actions: seq<Action<T>>): (s: System<T>)
    requires capacity > 0
    ensures |s.q.slots| == capacity
  {
    if actions == [] then Constructed(capacity)
    else Apply(Interleave(capacity, actions[..|actions| - 1]), actions[|actions| - 1])
  }

  // ---- the inductive invariant ----

  /** The ticket whose slot a call owns, between its compare-and-swap and its stamp swap. */
  function Owned<T>(op: Op<T>): Option<nat> {
    match op
    case PushWrite(_, t) => Some(t)
    case PushPublish(_, t) => Some(t)
    case PopRead(h) => Some(h)
    case PopDestroy(h, _) => Some(h)
    case PopFree(h, _) => Some(h)
    case _ => None
  }

  /** Counters and stamps of slot `i`: its tail stamp is the one ticket the slot serves now. */
  ghost predicate StampsOk<T>(s: System<T>, i: nat)
    requires i < |s.q.slots|
  {
    var n, sl := |s.q.slots|, s.q.slots[i];
    && sl.tail >= 0 && sl.tail % n == i
    && sl.tail < s.q.head + n && s.q.tail <= sl.tail + n
    && (sl.head == sl.tail || sl.head == if sl.tail < n then -1 else sl.tail - n)
    && (sl.head == sl.tail ==> sl.tail < s.q.tail)
    && (sl.head != sl.tail ==> sl.tail >= s.q.head)
  }

  /** What a slot that no call owns holds. */
  ghost predicate DataOk<T>(s: System<T>, i: nat)
    requires i < |s.q.slots| && |s.log| == s.q.tail
  {
    var sl := s.q.slots[i];
    && (sl.tail >= s.q.tail ==> sl.data == None)
    && (s.q.head <= sl.tail < s.q.tail && sl.head == sl.tail ==> sl.data == Some(s.log[sl.tail]))
  }

  /** A slot in transition has an owner. */
  ghost predicate HasOwner<T>(s: System<T>, i: nat)
    requires i < |s.q.slots|
  {
    var sl := s.q.slots[i];
    (sl.tail < s.q.tail && sl.head != sl.tail) || (sl.head == sl.tail && sl.tail < s.q.head)
    ==> exists tid :: tid in s.ops && Owned(s.ops[tid]) == Some(sl.tail)
  }

  /** What one call may rely on. */
  ghost predicate OpOk<T>(s: System<T>, op: Op<T>)
    requires |s.q.slots| > 0 && |s.log| == s.q.tail
  {
    var q, n := s.q, |s.q.slots|;
    match op
    case PushCheck(x, t) => t <= q.tail
    case PushCas(x, t) => t <= q.tail && (t == q.tail ==> q.slots[t % n].tail == t)
    case PushWrite(x, t) => t < q.tail && s.log[t] == x && var sl := q.slots[t % n]; sl.tail == t && sl.head != t && sl.data == None
    case PushPublish(x, t) => t < q.tail && s.log[t] == x && var sl := q.slots[t % n]; sl.tail == t && sl.head != t && sl.data == Some(x)
    case PushDone(t) => t < q.tail
    case PopCheck(h) => h <= q.head
    case PopCas(h) => h <= q.head && (h == q.head ==> q.slots[h % n].head == h)
    case PopRead(h) => h < q.head <= q.tail && var sl := q.slots[h % n]; sl.tail == h && sl.head == h && sl.data == Some(s.log[h])
    case PopDestroy(h, r) => h < q.head <= q.tail && s.log[h] == r && var sl := q.slots[h % n]; sl.tail == h && sl.head == h && sl.data == Some(r)
    case PopFree(h, r) => h < q.head <= q.tail && s.log[h] == r && var sl := q.slots[h % n]; sl.tail == h && sl.head == h && sl.data == None
    case PopDone(h, r) => h < q.head <= q.tail && s.log[h] == r && h in s.returned
    case Fault => false
    case _ => true
  }

  /** Every taken ticket is either still with its popper or was returned with its own value. */
  ghost predicate TicketOk<T>(s: System<T>, k: nat)
    requires |s.q.slots| > 0 && |s.log| == s.q.tail && k < s.q.head <= s.q.tail
  {
    if k in s.returned
    then s.returned[k] == s.log[k] && s.q.slots[k % |s.q.slots|].tail > k
    else s.q.slots[k % |s.q.slots|].tail == k
  }

  ghost predicate Inv<T>(s: System<T>) {
    && |s.q.slots| > 0 && |s.log| == s.q.tail
    && s.q.head <= s.q.tail <= s.q.head + |s.q.slots|
    && (forall i :: 0 <= i < |s.q.slots| ==> StampsOk(s, i) && DataOk(s, i) && HasOwner(s, i))
    && (forall tid :: tid in s.ops ==> OpOk(s, s.ops[tid]))
    && (forall t1, t2 :: t1 in s.ops && t2 in s.ops && t1 != t2 && Owned(s.ops[t1]).Some? ==> Owned(s.ops[t1]) != Owned(s.ops[t2]))
    && (forall k: nat :: k < s.q.head ==> TicketOk(s, k))
    && (forall k :: k in s.returned ==> k < s.q.head)
  }

  // ---- the invariant holds in every run ----

  lemma ConstructedInv<T>(capacity: nat)
    requires capacity > 0
    ensures Inv(Constructed<T>(capacity))
  {
    var s := Constructed<T>(capacity);
    forall i | 0 <= i < capacity ensures StampsOk(s, i) && DataOk(s, i) && HasOwner(s, i) {
      assert s.q.slots[i] == Slot(None, i, -1);
    }
  }

  lemma ApplyInv<T>(s: System<T>, a: Action<T>)
    requires Inv(s)
    ensures Inv(Apply(s, a))
  {
    match a
    case CallPush(tid, x) => if Idle(s, tid) { BeginInv(s, tid, PushStart(x)); }
    case CallPop(tid) => if Idle(s, tid) { BeginInv(s, tid, PopStart); }
    case Run(tid) => if tid in s.ops { AdvanceInv(s, tid); }
  }

  /** Replacing the call of a thread that owns no slot by one that owns none and relies on nothing new. */
  lemma LocalInv<T>(s: System<T>, tid: nat, op: Op<T>)
    requires Inv(s)
    requires tid in s.ops ==> Owned(s.ops[tid]).None?
    requires Owned(op).None? && OpOk(s, op)
    ensures Inv(s.(ops := s.ops[tid := op]))
  {
    var s' := s.(ops := s.ops[tid := op]);
    forall i | 0 <= i < |s'.q.slots| ensures StampsOk(s', i) && DataOk(s', i) && HasOwner(s', i) {
      assert StampsOk(s, i) && DataOk(s, i) && HasOwner(s, i);
      var t := s.q.slots[i].tail;
      if id :| id in s.ops && Owned(s.ops[id]) == Some(t) {
        assert id in s'.ops && Owned(s'.ops[id]) == Some(t);
      }
    }
    forall id | id in s'.ops ensures OpOk(s', s'.ops[id]) {
      if id != tid { assert OpOk(s, s.ops[id]); }
    }
    forall k: nat | k < s'.q.head ensures TicketOk(s', k) { assert TicketOk(s, k); }
  }

  lemma BeginInv<T>(s: System<T>, tid: nat, op: Op<T>)
    requires Inv(s) && Idle(s, tid) && (op.PushStart? || op.PopStart?)
    ensures Inv(s.(ops := s.ops[tid := op]))
  {
    LocalInv(s, tid, op);
  }

  lemma AdvanceInv<T>(s: System<T>, tid: nat)
    requires Inv(s) && tid in s.ops
    ensures Inv(Advance(s, tid))
  {
    var op, op' := s.ops[tid], Step(s.q, s.ops[tid]).1;
    assert OpOk(s, op);
    if op.PopFree? {
      PopFreeInv(s, tid);
    } else if Owned(op).Some? {
      OwnerInv(s, tid);
    } else if op'.PushWrite? {
      PushCasInv(s, tid);
    } else if op'.PopRead? {
      PopCasInv(s, tid);
    } else {
      assert Advance(s, tid) == s.(ops := s.ops[tid := op']);
      LocalInv(s, tid, op');
    }
  }

  // ---- winning a push ticket ----

  /** The slot of the next push ticket is free when its tail stamp matches. */
  lemma PushCasInv<T>(s: System<T>, tid: nat)
    requires Inv(s) && tid in s.ops && s.ops[tid].PushCas? && s.ops[tid].t == s.q.tail
    ensures Inv(Advance(s, tid))
  {
    var s', t := Advance(s, tid), s.q.tail;
    TailServed(s, tid);
    forall i | 0 <= i < |s'.q.slots| ensures StampsOk(s', i) && DataOk(s', i) && HasOwner(s', i) {
      PushCasSlot(s, tid, i);
    }
    forall id | id in s'.ops ensures OpOk(s', s'.ops[id]) { PushCasOps(s, tid, id); }
    forall k: nat | k < s'.q.head ensures TicketOk(s', k) { assert TicketOk(s, k); }
    forall id | id in s.ops && id != tid ensures Owned(s.ops[id]) != Some(t) { PushCasOps(s, tid, id); }
  }

  lemma TailServed<T>(s: System<T>, tid: nat)
    requires Inv(s) && tid in s.ops && s.ops[tid].PushCas? && s.ops[tid].t == s.q.tail
    ensures s.q.tail < s.q.head + |s.q.slots|
    ensures var sl := s.q.slots[s.q.tail % |s.q.slots|];
            sl.tail == s.q.tail && sl.head != s.q.tail && sl.data == None
  {
    var t, n := s.q.tail, |s.q.slots|;
    assert OpOk(s, s.ops[tid]) && StampsOk(s, t % n) && DataOk(s, t % n);
  }

  lemma PushCasOps<T>(s: System<T>, tid: nat, id: nat)
    requires Inv(s) && tid in s.ops && s.ops[tid].PushCas? && s.ops[tid].t == s.q.tail && id in s.ops
    ensures |Advance(s, tid).log| == Advance(s, tid).q.tail && OpOk(Advance(s, tid), Advance(s, tid).ops[id])
    ensures id != tid ==> Owned(s.ops[id]) != Some(s.q.tail)
  {
    TailServed(s, tid);
    assert OpOk(s, s.ops[id]);
  }

  lemma PushCasSlot<T>(s: System<T>, tid: nat, i: nat)
    requires Inv(s) && tid in s.ops && s.ops[tid].PushCas? && s.ops[tid].t == s.q.tail && i < |s.q.slots|
    ensures StampsOk(Advance(s, tid), i) && DataOk(Advance(s, tid), i) && HasOwner(Advance(s, tid), i)
  {
    var s', n, t := Advance(s, tid), |s.q.slots|, s.q.tail;
    assert OpOk(s, s.ops[tid]);
    assert StampsOk(s, i) && DataOk(s, i) && HasOwner(s, i);
    var k := s.q.slots[i].tail;
    if k + n == t { AddModulus(k, n); }
    if id :| id in s.ops && Owned(s.ops[id]) == Some(k) {
      assert id in s'.ops && Owned(s'.ops[id]) == Some(k);
    }
    if k == t { assert tid in s'.ops && Owned(s'.ops[tid]) == Some(k); }
  }

  // ---- winning a pop ticket ----

  /** A pop ticket is won only while its slot holds the value pushed with the same ticket. */
  lemma PopCasInv<T>(s: System<T>, tid: nat)
    requires Inv(s) && tid in s.ops && s.ops[tid].PopCas? && s.ops[tid].h == s.q.head
    ensures Inv(Advance(s, tid))
  {
    var s', h, n := Advance(s, tid), s.q.head, |s.q.slots|;
    HeadServed(s, tid);
    forall i | 0 <= i < |s'.q.slots| ensures StampsOk(s', i) && DataOk(s', i) && HasOwner(s', i) {
      PopCasSlot(s, tid, i);
    }
    forall id | id in s'.ops ensures OpOk(s', s'.ops[id]) { PopCasOps(s, tid, id); }
    forall k: nat | k < s'.q.head ensures TicketOk(s', k) {
      if k < h { assert TicketOk(s, k); }
    }
    forall id | id in s.ops && id != tid ensures Owned(s.ops[id]) != Some(h) { PopCasOps(s, tid, id); }
  }

  lemma PopCasOps<T>(s: System<T>, tid: nat, id: nat)
    requires Inv(s) && tid in s.ops && s.ops[tid].PopCas? && s.ops[tid].h == s.q.head && id in s.ops
    ensures OpOk(Advance(s, tid), Advance(s, tid).ops[id])
    ensures id != tid ==> Owned(s.ops[id]) != Some(s.q.head)
  {
    HeadServed(s, tid);
    assert OpOk(s, s.ops[id]);
  }

  lemma HeadServed<T>(s: System<T>, tid: nat)
    requires Inv(s) && tid in s.ops && s.ops[tid].PopCas? && s.ops[tid].h == s.q.head
    ensures s.q.head < s.q.tail
    ensures var sl := s.q.slots[s.q.head % |s.q.slots|];
            sl.tail == s.q.head && sl.head == s.q.head && sl.data == Some(s.log[s.q.head])
  {
    var h, n := s.q.head, |s.q.slots|;
    assert OpOk(s, s.ops[tid]) && StampsOk(s, h % n) && DataOk(s, h % n);
  }

  lemma PopCasSlot<T>(s: System<T>, tid: nat, i: nat)
    requires Inv(s) && tid in s.ops && s.ops[tid].PopCas? && s.ops[tid].h == s.q.head && i < |s.q.slots|
    ensures StampsOk(Advance(s, tid), i) && DataOk(Advance(s, tid), i) && HasOwner(Advance(s, tid), i)
  {
    var s', n, h := Advance(s, tid), |s.q.slots|, s.q.head;
    HeadServed(s, tid);
    assert StampsOk(s, i) && DataOk(s, i) && HasOwner(s, i);
    var k := s.q.slots[i].tail;
    if id :| id in s.ops && Owned(s.ops[id]) == Some(k) {
      assert id in s'.ops && Owned(s'.ops[id]) == Some(k);
    }
    if k == h { assert tid in s'.ops && Owned(s'.ops[tid]) == Some(k); }
  }

  // ---- the owner of a slot works on it ----

  /** No other call relies on a slot that `tid` owns. */
  lemma OthersElsewhere<T>(s: System<T>, tid: nat, id: nat)
    requires Inv(s) && tid in s.ops && id in s.ops && tid != id && Owned(s.ops[tid]).Some?
    ensures var op, t, n := s.ops[id], Owned(s.ops[tid]).value, |s.q.slots|;
            && (Owned(op).Some? ==> Owned(op).value % n != t % n)
            && (op.PushCas? && op.t == s.q.tail ==> op.t % n != t % n)
            && (op.PopCas? && op.h == s.q.head ==> op.h % n != t % n)
  {
    var op, t, n := s.ops[id], Owned(s.ops[tid]).value, |s.q.slots|;
    assert OpOk(s, s.ops[tid]) && OpOk(s, op) && StampsOk(s, t % n);
  }

  /** A step of the owner that keeps the slot's ticket: constructing, publishing, reading or destroying. */
  lemma OwnerInv<T>(s: System<T>, tid: nat)
    requires Inv(s) && tid in s.ops && Owned(s.ops[tid]).Some? && !s.ops[tid].PopFree?
    ensures Inv(Advance(s, tid))
  {
    var s', t, n := Advance(s, tid), Owned(s.ops[tid]).value, |s.q.slots|;
    assert OpOk(s, s.ops[tid]);
    forall i | 0 <= i < |s'.q.slots| ensures StampsOk(s', i) && DataOk(s', i) && HasOwner(s', i) {
      OwnerSlot(s, tid, i);
    }
    forall id | id in s'.ops ensures OpOk(s', s'.ops[id]) { OwnerOps(s, tid, id); }
    forall k: nat | k < s'.q.head ensures TicketOk(s', k) { assert TicketOk(s, k); }
  }

  lemma OwnerSlot<T>(s: System<T>, tid: nat, i: nat)
    requires Inv(s) && tid in s.ops && Owned(s.ops[tid]).Some? && !s.ops[tid].PopFree? && i < |s.q.slots|
    ensures StampsOk(Advance(s, tid), i) && DataOk(Advance(s, tid), i) && HasOwner(Advance(s, tid), i)
  {
    var s', t := Advance(s, tid), Owned(s.ops[tid]).value;
    assert OpOk(s, s.ops[tid]);
    assert StampsOk(s, i) && DataOk(s, i);
    OwnerStays(s, tid, i);
  }

  lemma OwnerStays<T>(s: System<T>, tid: nat, i: nat)
    requires Inv(s) && tid in s.ops && Owned(s.ops[tid]).Some? && !s.ops[tid].PopFree? && i < |s.q.slots|
    ensures HasOwner(Advance(s, tid), i)
  {
    var s', t := Advance(s, tid), Owned(s.ops[tid]).value;
    assert OpOk(s, s.ops[tid]);
    assert StampsOk(s, i) && HasOwner(s, i);
    var k := s.q.slots[i].tail;
    if id :| id in s.ops && Owned(s.ops[id]) == Some(k) {
      if id != tid { assert id in s'.ops && Owned(s'.ops[id]) == Some(k); }
    }
    if !s.ops[tid].PushPublish? { assert tid in s'.ops && Owned(s'.ops[tid]) == Some(t); }
  }

  lemma OwnerOps<T>(s: System<T>, tid: nat, id: nat)
    requires Inv(s) && tid in s.ops && Owned(s.ops[tid]).Some? && !s.ops[tid].PopFree? && id in s.ops
    ensures OpOk(Advance(s, tid), Advance(s, tid).ops[id])
  {
    var t, n := Owned(s.ops[tid]).value, |s.q.slots|;
    assert OpOk(s, s.ops[tid]) && OpOk(s, s.ops[id]);
    if id != tid { OthersElsewhere(s, tid, id); }
  }

  // ---- giving a slot back ----

  /** The popper stamps the slot for the push ticket one lap later and returns its value. */
  lemma PopFreeInv<T>(s: System<T>, tid: nat)
    requires Inv(s) && tid in s.ops && s.ops[tid].PopFree?
    ensures Inv(Advance(s, tid))
  {
    var s', h, n := Advance(s, tid), s.ops[tid].h, |s.q.slots|;
    assert OpOk(s, s.ops[tid]);
    forall i | 0 <= i < |s'.q.slots| ensures StampsOk(s', i) && DataOk(s', i) && HasOwner(s', i) {
      PopFreeSlot(s, tid, i);
    }
    forall id | id in s'.ops ensures OpOk(s', s'.ops[id]) {
      assert OpOk(s, s.ops[id]);
      if id != tid { OthersElsewhere(s, tid, id); }
    }
    forall k: nat | k < s'.q.head ensures TicketOk(s', k) { PopFreeTicket(s, tid, k); }
  }

  lemma PopFreeSlot<T>(s: System<T>, tid: nat, i: nat)
    requires Inv(s) && tid in s.ops && s.ops[tid].PopFree? && i < |s.q.slots|
    ensures StampsOk(Advance(s, tid), i) && DataOk(Advance(s, tid), i) && HasOwner(Advance(s, tid), i)
  {
    var s', h, n := Advance(s, tid), s.ops[tid].h, |s.q.slots|;
    assert OpOk(s, s.ops[tid]);
    assert StampsOk(s, i) && DataOk(s, i) && HasOwner(s, i);
    AddModulus(h, n);
    var k := s.q.slots[i].tail;
    if id :| id in s.ops && Owned(s.ops[id]) == Some(k) {
      if id != tid { assert id in s'.ops && Owned(s'.ops[id]) == Some(k); }
    }
  }

  lemma PopFreeTicket<T>(s: System<T>, tid: nat, k: nat)
    requires Inv(s) && tid in s.ops && s.ops[tid].PopFree? && k < s.q.head
    ensures TicketOk(Advance(s, tid), k)
  {
    var h, n := s.ops[tid].h, |s.q.slots|;
    assert OpOk(s, s.ops[tid]) && TicketOk(s, k) && StampsOk(s, h % n);
  }

  // ---- what every run guarantees ----

  lemma {:induction false} EveryRun<T>(capacity: nat, actions: seq<Action<T>>)
    requires capacity > 0
    ensures Inv(Interleave(capacity, actions))
  {
    if actions == [] {
      ConstructedInv<T>(capacity);
    } else {
      EveryRun(capacity, actions[..|actions| - 1]);
      ApplyInv(Interleave(capacity, actions[..|actions| - 1]), actions[|actions| - 1]);
    }
  }

  /** The abstract queue: the values of the won push tickets that no pop ticket has claimed. */
  function Contents<T>(s: System<T>): seq<T>
    requires s.q.head <= |s.log|
  {
    s.log[s.q.head..]
  }

  /** The two linearisation points: the successful compare-and-swaps. */
  predicate WinsPush<T>(s: System<T>, a: Action<T>) {
    a.Run? && a.tid in s.ops && s.ops[a.tid].PushCas? && s.ops[a.tid].t == s.q.tail
  }

  predicate WinsPop<T>(s: System<T>, a: Action<T>) {
    a.Run? && a.tid in s.ops && s.ops[a.tid].PopCas? && s.ops[a.tid].h == s.q.head
  }

  /** What one action does to the abstract queue. */
  ghost predicate FifoStep<T>(s: System<T>, a: Action<T>, s': System<T>) {
    && s.q.head <= |s.log| == s.q.tail <= s.q.head + |s.q.slots|
    && s'.q.head <= |s'.log| == s'.q.tail
    && (WinsPush(s, a) ==> |Contents(s)| < |s.q.slots| && Contents(s') == Contents(s) + [s.ops[a.tid].x])
    && (WinsPop(s, a) ==> Contents(s) != [] && Contents(s') == Contents(s)[1..] && s.log[s.ops[a.tid].h] == Contents(s)[0])
    && (!WinsPush(s, a) && !WinsPop(s, a) ==> Contents(s') == Contents(s))
  }

  lemma ApplyRefines<T>(s: System<T>, a: Action<T>)
    requires Inv(s)
    ensures FifoStep(s, a, Apply(s, a))
  {
    if WinsPush(s, a) {
      TailServed(s, a.tid);
    } else if WinsPop(s, a) {
      HeadServed(s, a.tid);
    } else if a.Run? && a.tid in s.ops {
      assert OpOk(s, s.ops[a.tid]);
      assert Advance(s, a.tid).log == s.log && Advance(s, a.tid).q.head == s.q.head;
    }
  }

  /** Every step of every run is a step of a bounded FIFO queue or leaves that queue alone. */
  lemma RefinesBoundedFifo<T>(capacity: nat, actions: seq<Action<T>>, a: Action<T>)
    requires capacity > 0
    ensures Contents(Constructed<T>(capacity)) == []
    ensures FifoStep(Interleave(capacity, actions), a, Interleave(capacity, actions + [a]))
  {
    EveryRun(capacity, actions);
    assert (actions + [a])[..|actions|] == actions;
    ApplyRefines(Interleave(capacity, actions), a);
  }

  /**
   A pop returns exactly the value pushed with its ticket; no ticket returns twice; no step
   constructs, reads or destroys an object that is not there to be.
   */
  lemma PopReturnsItsTicket<T>(capacity: nat, actions: seq<Action<T>>, tid: nat)
    requires capacity > 0 && tid in Interleave(capacity, actions).ops
    ensures var s := Interleave(capacity, actions); var op := s.ops[tid];
            && !op.Fault?
            && (op.PopDone? ==> op.h < |s.log| && op.r == s.log[op.h] && op.h in s.returned)
            && (op.PopFree? ==> op.h < |s.log| && op.r == s.log[op.h] && op.h !in s.returned)
  {
    EveryRun(capacity, actions);
    var s := Interleave(capacity, actions);
    assert OpOk(s, s.ops[tid]);
    if s.ops[tid].PopFree? { assert TicketOk(s, s.ops[tid].h); }
  }

  /** Between compare-and-swap and stamp swap each slot has exactly one owner, and then it has one. */
  lemma OneOwnerPerSlot<T>(capacity: nat, actions: seq<Action<T>>, t1: nat, t2: nat)
    requires capacity > 0
    ensures var s := Interleave(capacity, actions);
            t1 in s.ops && t2 in s.ops && t1 != t2 && Owned(s.ops[t1]).Some? && Owned(s.ops[t2]).Some?
            ==> Owned(s.ops[t1]).value % capacity != Owned(s.ops[t2]).value % capacity
  {
    EveryRun(capacity, actions);
    var s := Interleave(capacity, actions);
    if t1 in s.ops && t2 in s.ops && t1 != t2 && Owned(s.ops[t1]).Some? { OthersElsewhere(s, t1, t2); }
  }

  /** Every pop ticket ever won was returned with its own value or is in the hands of exactly one call. */
  lemma NothingLost<T>(capacity: nat, actions: seq<Action<T>>, k: nat)
    requires capacity > 0
    ensures var s := Interleave(capacity, actions);
            && (k in s.returned ==> k < s.q.head <= |s.log| && s.returned[k] == s.log[k])
            && (k < s.q.head ==> (k in s.returned <==> !exists tid :: tid in s.ops && Owned(s.ops[tid]) == Some(k)))
  {
    EveryRun(capacity, actions);
    var s := Interleave(capacity, actions);
    if k < s.q.head {
      var i := k % capacity;
      assert TicketOk(s, k) && StampsOk(s, i) && HasOwner(s, i);
      if tid :| tid in s.ops && Owned(s.ops[tid]) == Some(k) { assert OpOk(s, s.ops[tid]); }
    }
  }

  // ---- one call with no other call in flight ----

  /** No thread is inside a call. */
  ghost predicate Quiet<T>(s: System<T>) {
    forall tid :: tid in s.ops ==> Idle(s, tid)
  }

  /** `k` further steps of one thread. */
  function Alone<T>(s: System<T>, tid: nat, k: nat): (s': System<T>)
    requires |s.q.slots| > 0 && tid in s.ops
    ensures tid in s'.ops && |s'.q.slots| == |s.q.slots|
    decreases k
  {
    if k == 0 then s else Alone(Advance(s, tid), tid, k - 1)
  }

  /** With no call in flight everything taken was returned, and each slot is free or holds its queued value. */
  lemma QuietSlots<T>(s: System<T>)
    requires Inv(s) && Quiet(s)
    ensures s.returned == map k: nat | k < s.q.head :: s.log[k]
    ensures s.q.slots[s.q.tail % |s.q.slots|].tail == s.q.tail <==> |Contents(s)| < |s.q.slots|
    ensures s.q.slots[s.q.head % |s.q.slots|].head == s.q.head <==> |Contents(s)| > 0
  {
    var n := |s.q.slots|;
    forall k: nat | k < s.q.head ensures k in s.returned {
      assert TicketOk(s, k) && StampsOk(s, k % n) && HasOwner(s, k % n);
    }
    forall k | k in s.returned ensures s.returned[k] == s.log[k] { assert TicketOk(s, k); }
    QuietSlot(s, s.q.tail);
    QuietSlot(s, s.q.head);
  }

  lemma QuietSlot<T>(s: System<T>, t: nat)
    requires Inv(s) && Quiet(s) && s.q.head <= t <= s.q.tail
    ensures var sl := s.q.slots[t % |s.q.slots|];
            && (t == s.q.tail ==> (sl.tail == t <==> |Contents(s)| < |s.q.slots|))
            && (t == s.q.head ==> (sl.head == t <==> |Contents(s)| > 0))
  {
    var n := |s.q.slots|;
    var k := s.q.slots[t % n].tail;
    assert StampsOk(s, t % n) && HasOwner(s, t % n);
    if -n < t - k < n { SameRemainder(t, k, n); }
  }

  /**
   A `push` with no other call in flight returns false exactly when the queue is full, and
   otherwise appends its value.
   */
  lemma LonePush<T>(s: System<T>, tid: nat, x: T)
    requires Inv(s) && Quiet(s)
    ensures var s0 := Apply(s, CallPush(tid, x));
            if |Contents(s)| == |s.q.slots| then Alone(s0, tid, 2) == s.(ops := s.ops[tid := PushFail])
            else PushedAlone(s, Alone(s0, tid, 5), tid, x)
  {
    QuietSlots(s);
    assert Idle(s, tid);
    assert DataOk(s, s.q.tail % |s.q.slots|);
    if |Contents(s)| == |s.q.slots| { PushRefused(s, tid, x); } else { PushRuns(s, tid, x); }
  }

  ghost predicate PushedAlone<T>(s: System<T>, s': System<T>, tid: nat, x: T)
    requires s.q.head <= |s.log|
  {
    && s'.q.head <= |s'.log| && s'.returned == s.returned
    && s'.ops == s.ops[tid := PushDone(s.q.tail)]
    && Contents(s') == Contents(s) + [x]
  }

  lemma PushRefused<T>(s: System<T>, tid: nat, x: T)
    requires |s.q.slots| > 0 && Idle(s, tid)
    requires s.q.slots[s.q.tail % |s.q.slots|].tail != s.q.tail
    ensures Alone(Apply(s, CallPush(tid, x)), tid, 2) == s.(ops := s.ops[tid := PushFail])
  {
    var s0 := Apply(s, CallPush(tid, x));
    var s1 := Advance(s0, tid);
    assert Alone(s0, tid, 2) == Alone(s1, tid, 1) == Advance(s1, tid);
  }

  lemma PushRuns<T>(s: System<T>, tid: nat, x: T)
    requires |s.q.slots| > 0 && Idle(s, tid) && s.q.head <= |s.log|
    requires var sl := s.q.slots[s.q.tail % |s.q.slots|]; sl.tail == s.q.tail && sl.data == None
    ensures PushedAlone(s, Alone(Apply(s, CallPush(tid, x)), tid, 5), tid, x)
  {
    var s0 := Apply(s, CallPush(tid, x));
    var s1 := Advance(s0, tid);
    var s2 := Advance(s1, tid);
    var s3 := Advance(s2, tid);
    assert s3 == System(s.q.(tail := s.q.tail + 1), s.ops[tid := PushWrite(x, s.q.tail)], s.log + [x], s.returned);
    PushFinishes(s, s3, tid, x);
    assert Alone(s0, tid, 5) == Alone(s1, tid, 4) == Alone(s2, tid, 3) == Alone(s3, tid, 2);
  }

  lemma PushFinishes<T>(s: System<T>, s3: System<T>, tid: nat, x: T)
    requires |s.q.slots| > 0 && s.q.head <= |s.log|
    requires s.q.slots[s.q.tail % |s.q.slots|].data == None
    requires s3 == System(s.q.(tail := s.q.tail + 1), s.ops[tid := PushWrite(x, s.q.tail)], s.log + [x], s.returned)
    ensures PushedAlone(s, Alone(s3, tid, 2), tid, x)
  {
    var s4 := Advance(s3, tid);
    assert s4.ops == s.ops[tid := PushPublish(x, s.q.tail)];
    var s5 := Advance(s4, tid);
    assert Alone(s3, tid, 2) == Alone(s4, tid, 1) == s5;
  }

  /**
   A `pop` with no other call in flight returns false exactly when the queue is empty, and
   otherwise removes and returns the front value.
   */
  lemma LonePop<T>(s: System<T>, tid: nat)
    requires Inv(s) && Quiet(s)
    ensures var s0 := Apply(s, CallPop(tid));
            if Contents(s) == [] then Alone(s0, tid, 2) == s.(ops := s.ops[tid := PopFail])
            else PoppedAlone(s, Alone(s0, tid, 6), tid)
  {
    QuietSlots(s);
    assert Idle(s, tid);
    assert StampsOk(s, s.q.head % |s.q.slots|) && DataOk(s, s.q.head % |s.q.slots|);
    if Contents(s) == [] { PopRefused(s, tid); } else { PopRuns(s, tid); }
  }

  ghost predicate PoppedAlone<T>(s: System<T>, s': System<T>, tid: nat)
    requires s.q.head < |s.log|
  {
    && s'.q.head <= |s'.log| && s'.returned == s.returned[s.q.head := Contents(s)[0]]
    && s'.ops == s.ops[tid := PopDone(s.q.head, Contents(s)[0])]
    && Contents(s') == Contents(s)[1..]
  }

  lemma PopRefused<T>(s: System<T>, tid: nat)
    requires |s.q.slots| > 0 && Idle(s, tid)
    requires s.q.slots[s.q.head % |s.q.slots|].head != s.q.head
    ensures Alone(Apply(s, CallPop(tid)), tid, 2) == s.(ops := s.ops[tid := PopFail])
  {
    var s0 := Apply(s, CallPop(tid));
    var s1 := Advance(s0, tid);
    assert Alone(s0, tid, 2) == Alone(s1, tid, 1) == Advance(s1, tid);
  }

  lemma PopRuns<T>(s: System<T>, tid: nat)
    requires |s.q.slots| > 0 && Idle(s, tid) && s.q.head < |s.log|
    requires var sl := s.q.slots[s.q.head % |s.q.slots|]; sl.head == s.q.head && sl.data == Some(s.log[s.q.head])
    ensures PoppedAlone(s, Alone(Apply(s, CallPop(tid)), tid, 6), tid)
  {
    var s0 := Apply(s, CallPop(tid));
    var s1 := Advance(s0, tid);
    var s2 := Advance(s1, tid);
    var s3 := Advance(s2, tid);
    assert s3 == s.(q := s.q.(head := s.q.head + 1), ops := s.ops[tid := PopRead(s.q.head)]);
    PopFinishes(s, s3, tid);
    assert Alone(s0, tid, 6) == Alone(s1, tid, 5) == Alone(s2, tid, 4) == Alone(s3, tid, 3);
  }

  lemma PopFinishes<T>(s: System<T>, s3: System<T>, tid: nat)
    requires |s.q.slots| > 0 && s.q.head < |s.log|
    requires s.q.slots[s.q.head % |s.q.slots|].data == Some(s.log[s.q.head])
    requires s3 == s.(q := s.q.(head := s.q.head + 1), ops := s.ops[tid := PopRead(s.q.head)])
    ensures PoppedAlone(s, Alone(s3, tid, 3), tid)
  {
    var s4 := Advance(s3, tid);
    var s5 := Advance(s4, tid);
    assert s5.ops == s.ops[tid := PopFree(s.q.head, s.log[s.q.head])];
    var s6 := Advance(s5, tid);
    assert Alone(s3, tid, 3) == Alone(s4, tid, 2) == Alone(s5, tid, 1) == s6;
  }
}
