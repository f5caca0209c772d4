/**
 Signals and slots: emitters, listeners, and emissions that run code which connects, disconnects,
 emits and destroys while they walk over a list of slots.
 */
module Callbacks {
  import opened Basics
  import opened SlotLists

  /** `Emitter::signalData` of every living emitter, and `Listener::slotData` of every living listener. */
  type Emitters = map<int, map<int, SignalData>>
  type Listeners = map<int, map<int, seq<Signal>>>

  /** A `SignalActivation` on the call stack; `next` is the index of the enclosing one of the same signal. */
  datatype Activation = Activation(emitter: int, signal: int, next: Option<nat>, invalidated: bool)

  /** What a history records. */
  datatype Event =
    | Called(emitter: int, signal: int, id: int, receiver: int, depth: nat)   // `depth` activations on the stack
    | Dropped(emitter: int, signal: int, id: int)
    | EmitterGone(emitter: int)
    | ListenerGone(listener: int)

  function SlotsOf(em: Emitters, e: int, s: int): seq<Slot> {
    if e in em && s in em[e] then em[e][s].slots else []
  }

  function SignalsOf(li: Listeners, l: int, e: int): seq<Signal> {
    if l in li && e in li[l] then li[l][e] else []
  }

  function SetData(em: Emitters, e: int, s: int, d: SignalData): Emitters
    requires e in em
  {
    em[e := em[e][s := d]]
  }

  function SetSignals(li: Listeners, l: int, e: int, ss: seq<Signal>): Listeners
    requires l in li
  {
    li[l := li[l][e := ss]]
  }

  // ---- the two tables ----

  /** The live entries of every emitter and the records of every listener match one for one. */
  ghost predicate Mirrored(em: Emitters, li: Listeners) {
    forall e, s, l, m :: Live(SlotsOf(em, e, s), l, m) == Count(SignalsOf(li, l, e), s, m)
  }

  /** A change of one list on each side that takes or gives the same. */
  lemma MirrorBoth(em: Emitters, li: Listeners, e: int, s: int, d: SignalData, l: int, ss: seq<Signal>)
    requires Mirrored(em, li) && e in em && l in li
    requires forall l', m :: Live(d.slots, l', m) - Live(SlotsOf(em, e, s), l', m)
                             == if l' == l then Count(ss, s, m) - Count(SignalsOf(li, l, e), s, m) else 0
    requires forall s', m :: s' != s ==> Count(ss, s', m) == Count(SignalsOf(li, l, e), s', m)
    ensures Mirrored(SetData(em, e, s, d), SetSignals(li, l, e, ss))
  {
    hide Live, Count;
    var em', li' := SetData(em, e, s, d), SetSignals(li, l, e, ss);
    forall e', s', l', m ensures Live(SlotsOf(em', e', s'), l', m) == Count(SignalsOf(li', l', e'), s', m) {
      var was := SignalsOf(li, l', e');
      assert Live(SlotsOf(em, e', s'), l', m) == Count(was, s', m);
      assert SlotsOf(em', e', s') == if e' == e && s' == s then d.slots else SlotsOf(em, e', s');
      assert SignalsOf(li', l', e') == if e' == e && l' == l then ss else was;
    }
  }

  /** A change of an emitter's list that keeps its live entries. */
  lemma MirrorSame(em: Emitters, li: Listeners, e: int, s: int, d: SignalData)
    requires Mirrored(em, li) && e in em
    requires forall l, m :: Live(d.slots, l, m) == Live(SlotsOf(em, e, s), l, m)
    ensures Mirrored(SetData(em, e, s, d), li)
  {
    var em' := SetData(em, e, s, d);
    forall e', s', l, m ensures Live(SlotsOf(em', e', s'), l, m) == Count(SignalsOf(li, l, e'), s', m) {
      assert Live(SlotsOf(em, e', s'), l, m) == Count(SignalsOf(li, l, e'), s', m);
    }
  }

  /** An emitter without live entries, a listener without records: nobody notices when it goes. */
  lemma MirrorEmitterGone(em: Emitters, li: Listeners, e: int)
    requires Mirrored(em, li) && forall s, l, m :: Live(SlotsOf(em, e, s), l, m) == 0
    ensures Mirrored(em - {e}, li)
  {
    var em' := em - {e};
    forall e', s, l, m ensures Live(SlotsOf(em', e', s), l, m) == Count(SignalsOf(li, l, e'), s, m) {
      assert Live(SlotsOf(em, e', s), l, m) == Count(SignalsOf(li, l, e'), s, m);
      if e' != e { assert SlotsOf(em', e', s) == SlotsOf(em, e', s); } else { assert SlotsOf(em', e', s) == []; }
    }
  }

  /** A live entry's receiver is a living listener with a record of it. */
  lemma LiveReceiver(em: Emitters, li: Listeners, e: int, s: int, i: nat)
    requires Mirrored(em, li) && i < |SlotsOf(em, e, s)| && !SlotsOf(em, e, s)[i].state.Disconnected?
    ensures var x := SlotsOf(em, e, s)[i];
            x.receiver in li && e in li[x.receiver] && Count(li[x.receiver][e], s, x.slot) > 0
  {
    var x := SlotsOf(em, e, s)[i];
    LiveSome(SlotsOf(em, e, s), x.receiver, x.slot);
    assert Live(SlotsOf(em, e, s), x.receiver, x.slot) == Count(SignalsOf(li, x.receiver, e), s, x.slot);
  }

  /** A record leads to a living emitter with a list that has a live entry for it. */
  lemma RecordedEmitter(em: Emitters, li: Listeners, l: int, e: int, k: nat)
    requires Mirrored(em, li) && k < |SignalsOf(li, l, e)|
    ensures var r := SignalsOf(li, l, e)[k];
            e in em && r.signal in em[e] && Live(em[e][r.signal].slots, l, r.slot) > 0
  {
    var r := SignalsOf(li, l, e)[k];
    CountSome(SignalsOf(li, l, e), r.signal, r.slot);
    assert Live(SlotsOf(em, e, r.signal), l, r.slot) == Count(SignalsOf(li, l, e), r.signal, r.slot);
  }

  // ---- the stack of activations ----

  /** The innermost activation of a signal. */
  function TopOf(stack: seq<Activation>, e: int, s: int): Option<nat> {
    if stack == [] then None
    else if stack[|stack| - 1].emitter == e && stack[|stack| - 1].signal == s then Some(|stack| - 1)
    else TopOf(stack[..|stack| - 1], e, s)
  }

  lemma {:induction false} TopIs(stack: seq<Activation>, e: int, s: int)
    ensures var t := TopOf(stack, e, s);
            t.Some? ==> t.value < |stack| && stack[t.value].emitter == e && stack[t.value].signal == s
  {
    if stack != [] { TopIs(stack[..|stack| - 1], e, s); }
  }

  /** The frames are the same but for the flags. */
  ghost predicate SameFrames(a: seq<Activation>, b: seq<Activation>) {
    |a| == |b| && forall i :: 0 <= i < |a| ==> a[i].emitter == b[i].emitter && a[i].signal == b[i].signal && a[i].next == b[i].next
  }

  lemma {:induction false} SameTop(a: seq<Activation>, b: seq<Activation>, e: int, s: int)
    requires SameFrames(a, b)
    ensures TopOf(a, e, s) == TopOf(b, e, s)
  {
    if a != [] { SameTop(a[..|a| - 1], b[..|b| - 1], e, s); }
  }

  /** Each `next` leads to the enclosing activation of the same signal. */
  ghost predicate Linked(stack: seq<Activation>) {
    forall i :: 0 <= i < |stack| ==> stack[i].next == TopOf(stack[..i], stack[i].emitter, stack[i].signal)
  }

  /** Every `activation` field leads to the innermost activation, and no frame of a living emitter is invalidated. */
  ghost predicate StackOk(em: Emitters, stack: seq<Activation>, trace: seq<Event>) {
    && Linked(stack)
    && (forall e, s :: e in em && s in em[e] ==> em[e][s].activation == TopOf(stack, e, s))
    && (forall i :: 0 <= i < |stack| ==> FrameOk(em, stack, trace, i))
  }

  ghost predicate FrameOk(em: Emitters, stack: seq<Activation>, trace: seq<Event>, i: nat)
    requires i < |stack|
  {
    var a := stack[i];
    if a.emitter in em then a.signal in em[a.emitter] && !a.invalidated
    else EmitterGone(a.emitter) in trace && (TopOf(stack, a.emitter, a.signal) == Some(i) ==> a.invalidated)
  }

  // ---- the lists of slots ----

  ghost predicate DataOk(d: SignalData, bound: nat) {
    && Ordered(d.slots, bound)
    && (!d.dirty ==> AllConnected(d.slots))
    && (d.activation.None? ==> !d.dirty)
  }

  ghost predicate ListsOk(em: Emitters, bound: nat) {
    forall e, s :: e in em && s in em[e] ==> DataOk(em[e][s], bound)
  }

  // ---- the history ----

  /** No call comes after its entry was dropped, its emitter was destroyed or its receiver was destroyed. */
  ghost predicate TraceOk(t: seq<Event>) {
    forall p, q :: 0 <= p < q < |t| && t[q].Called? ==>
      t[p] != Dropped(t[q].emitter, t[q].signal, t[q].id) && t[p] != EmitterGone(t[q].emitter) && t[p] != ListenerGone(t[q].receiver)
  }

  ghost predicate HistoryOk(em: Emitters, li: Listeners, t: seq<Event>, bound: nat) {
    && TraceOk(t)
    && (forall e :: e in em ==> EmitterGone(e) !in t)
    && (forall l :: l in li ==> ListenerGone(l) !in t)
    && (forall e, s, id :: Dropped(e, s, id) in t ==> id < bound)
    && (forall e, s :: e in em && s in em[e] ==> NotDropped(em[e][s].slots, t, e, s))
  }

  ghost predicate NotDropped(xs: seq<Slot>, t: seq<Event>, e: int, s: int) {
    forall i :: 0 <= i < |xs| && !xs[i].state.Disconnected? ==> Dropped(e, s, xs[i].id) !in t
  }

  /** The event happened after the history `t0`. */
  ghost predicate Since(t0: seq<Event>, t: seq<Event>, ev: Event) {
    t0 <= t && ev in t[|t0|..]
  }

  lemma SinceLater(t0: seq<Event>, t1: seq<Event>, t: seq<Event>, ev: Event)
    requires t0 <= t1 <= t && (Since(t0, t1, ev) || Since(t1, t, ev))
    ensures Since(t0, t, ev)
  {
    if Since(t0, t1, ev) {
      var p :| 0 <= p < |t1[|t0|..]| && t1[|t0|..][p] == ev;
      assert t[|t0|..][p] == ev;
    } else {
      var p :| 0 <= p < |t[|t1|..]| && t[|t1|..][p] == ev;
      assert t[|t0|..][|t1| - |t0| + p] == ev;
    }
  }

  lemma SinceIn(t0: seq<Event>, t: seq<Event>, ev: Event)
    requires Since(t0, t, ev)
    ensures ev in t && t0 <= t
  {
  }

  /** What can happen to a list of slots under an emission: entries come at the end, and entries are dropped. */
  ghost predicate Kept(xs: seq<Slot>, ys: seq<Slot>, t0: seq<Event>, t: seq<Event>, e: int, s: int) {
    && |xs| <= |ys| && t0 <= t
    && (forall i :: 0 <= i < |xs| ==> SameEntry(xs[i], ys[i], t0, t, e, s))
    && (forall i :: |xs| <= i < |ys| ==> !ys[i].state.Connected?)
  }

  ghost predicate SameEntry(x: Slot, y: Slot, t0: seq<Event>, t: seq<Event>, e: int, s: int) {
    && y.id == x.id && y.receiver == x.receiver && y.slot == x.slot
    && (y.state == x.state || (y.state.Disconnected? && Since(t0, t, Dropped(e, s, x.id))))
  }

  lemma KeptSame(xs: seq<Slot>, t0: seq<Event>, t: seq<Event>, e: int, s: int)
    requires t0 <= t
    ensures Kept(xs, xs, t0, t, e, s)
  {
  }

  lemma KeptLater(xs: seq<Slot>, ys: seq<Slot>, zs: seq<Slot>, t0: seq<Event>, t1: seq<Event>, t: seq<Event>, e: int, s: int)
    requires Kept(xs, ys, t0, t1, e, s) && Kept(ys, zs, t1, t, e, s)
    ensures Kept(xs, zs, t0, t, e, s)
  {
    forall i | 0 <= i < |xs| ensures SameEntry(xs[i], zs[i], t0, t, e, s) {
      assert SameEntry(xs[i], ys[i], t0, t1, e, s) && SameEntry(ys[i], zs[i], t1, t, e, s);
      var ev := Dropped(e, s, xs[i].id);
      if Since(t0, t1, ev) || Since(t1, t, ev) { SinceLater(t0, t1, t, ev); }
    }
    forall i | |xs| <= i < |zs| ensures !zs[i].state.Connected? {
      if i < |ys| { assert SameEntry(ys[i], zs[i], t1, t, e, s); }
    }
  }

  /** Every call of the signal since `t` was of an entry that was connected in the list `xs`. */
  ghost predicate CalledOnly(xs: seq<Slot>, t: seq<Event>, t': seq<Event>, e: int, s: int) {
    forall p :: |t| <= p < |t'| && t'[p].Called? && t'[p].emitter == e && t'[p].signal == s ==> ConnectedId(xs, t'[p].id)
  }

  ghost predicate ConnectedId(xs: seq<Slot>, id: int) {
    exists i :: 0 <= i < |xs| && xs[i].state.Connected? && xs[i].id == id
  }

  lemma KeptConnected(xs: seq<Slot>, ys: seq<Slot>, t0: seq<Event>, t: seq<Event>, e: int, s: int, id: int)
    requires Kept(xs, ys, t0, t, e, s) && ConnectedId(ys, id)
    ensures ConnectedId(xs, id)
  {
    var i :| 0 <= i < |ys| && ys[i].state.Connected? && ys[i].id == id;
    assert SameEntry(xs[i], ys[i], t0, t, e, s);
  }

  lemma CalledLater(xs: seq<Slot>, ys: seq<Slot>, t: seq<Event>, t1: seq<Event>, t2: seq<Event>, e: int, s: int)
    requires CalledOnly(xs, t, t1, e, s) && CalledOnly(ys, t1, t2, e, s) && t <= t1 <= t2 && Kept(xs, ys, t, t1, e, s)
    ensures CalledOnly(xs, t, t2, e, s)
  {
    forall p | |t| <= p < |t2| && t2[p].Called? && t2[p].emitter == e && t2[p].signal == s ensures ConnectedId(xs, t2[p].id) {
      if p < |t1| { assert t1[p] == t2[p]; } else { KeptConnected(xs, ys, t, t1, e, s, t2[p].id); }
    }
  }

  /** An emitter that is gone is not called any more. */
  lemma CalledBefore(xs: seq<Slot>, t: seq<Event>, t1: seq<Event>, t2: seq<Event>, e: int, s: int)
    requires CalledOnly(xs, t, t1, e, s) && t <= t1 <= t2 && Since(t, t1, EmitterGone(e)) && TraceOk(t2)
    ensures CalledOnly(xs, t, t2, e, s)
  {
    var q :| 0 <= q < |t1[|t|..]| && t1[|t|..][q] == EmitterGone(e);
    assert t2[|t| + q] == EmitterGone(e);
    forall p | |t| <= p < |t2| && t2[p].Called? && t2[p].emitter == e && t2[p].signal == s ensures ConnectedId(xs, t2[p].id) {
      if p < |t1| { assert t1[p] == t2[p]; }
    }
  }

  /** What any code run by a slot does to the emissions around it. */
  ghost predicate Evolved(em: Emitters, st: seq<Activation>, t: seq<Event>, em': Emitters, st': seq<Activation>, t': seq<Event>) {
    && t <= t' && SameFrames(st, st')
    && forall e, s :: e in em && TopOf(st, e, s).Some? ==> Survives(em, t, em', t', e, s)
  }

  ghost predicate Survives(em: Emitters, t: seq<Event>, em': Emitters, t': seq<Event>, e: int, s: int) {
    && CalledOnly(SlotsOf(em, e, s), t, t', e, s)
    && if e in em' then Kept(SlotsOf(em, e, s), SlotsOf(em', e, s), t, t', e, s) else Since(t, t', EmitterGone(e))
  }

  lemma EvolvedLater(em: Emitters, st: seq<Activation>, t: seq<Event>, em1: Emitters, st1: seq<Activation>, t1: seq<Event>,
                     em2: Emitters, st2: seq<Activation>, t2: seq<Event>)
    requires Evolved(em, st, t, em1, st1, t1) && Evolved(em1, st1, t1, em2, st2, t2)
    requires (forall e :: e in em2 ==> EmitterGone(e) !in t2) && TraceOk(t2)
    ensures Evolved(em, st, t, em2, st2, t2)
  {
    hide Kept, CalledOnly, Since, TraceOk;
    forall e, s | e in em && TopOf(st, e, s).Some? ensures Survives(em, t, em2, t2, e, s) {
      SameTop(st, st1, e, s);
      assert Survives(em, t, em1, t1, e, s);
      var ev := EmitterGone(e);
      if e in em1 {
        assert Survives(em1, t1, em2, t2, e, s);
        CalledLater(SlotsOf(em, e, s), SlotsOf(em1, e, s), t, t1, t2, e, s);
        if e in em2 { KeptLater(SlotsOf(em, e, s), SlotsOf(em1, e, s), SlotsOf(em2, e, s), t, t1, t2, e, s); }
        else { SinceLater(t, t1, t2, ev); }
      } else {
        SinceLater(t, t1, t2, ev);
        CalledBefore(SlotsOf(em, e, s), t, t1, t2, e, s);
        SinceIn(t, t2, ev);
      }
    }
  }

  lemma EvolvedSame(em: Emitters, st: seq<Activation>, t: seq<Event>, em': Emitters)
    requires forall e, s :: e in em ==> e in em' && SlotsOf(em', e, s) == SlotsOf(em, e, s)
    ensures Evolved(em, st, t, em', st, t)
  {
    forall e, s | e in em && TopOf(st, e, s).Some? ensures Survives(em, t, em', t, e, s) {
      assert SlotsOf(em', e, s) == SlotsOf(em, e, s);
    }
  }

  // ---- changing one list ----

  lemma StackSet(em: Emitters, stack: seq<Activation>, t: seq<Event>, t': seq<Event>, e: int, s: int, d: SignalData)
    requires StackOk(em, stack, t) && e in em && t <= t'
    requires d.activation == if s in em[e] then em[e][s].activation else None
    ensures StackOk(SetData(em, e, s, d), stack, t')
  {
    TopIs(stack, e, s);
    if TopOf(stack, e, s).Some? { assert FrameOk(em, stack, t, TopOf(stack, e, s).value); }
    var em' := SetData(em, e, s, d);
    forall i | 0 <= i < |stack| ensures FrameOk(em', stack, t', i) { assert FrameOk(em, stack, t, i); }
  }

  lemma ListsSet(em: Emitters, bound: nat, bound': nat, e: int, s: int, d: SignalData)
    requires ListsOk(em, bound) && e in em && bound <= bound' && DataOk(d, bound')
    ensures ListsOk(SetData(em, e, s, d), bound')
  {
    var em' := SetData(em, e, s, d);
    forall e', s' | e' in em' && s' in em'[e'] ensures DataOk(em'[e'][s'], bound') {
      if e' != e || s' != s { assert DataOk(em[e'][s'], bound); }
    }
  }

  lemma TraceAdd(t: seq<Event>, ev: Event)
    requires TraceOk(t)
    requires ev.Called? ==> Dropped(ev.emitter, ev.signal, ev.id) !in t && EmitterGone(ev.emitter) !in t && ListenerGone(ev.receiver) !in t
    ensures TraceOk(t + [ev])
  {
  }

  lemma HistorySet(em: Emitters, li: Listeners, t: seq<Event>, bound: nat, bound': nat, e: int, s: int, d: SignalData)
    requires HistoryOk(em, li, t, bound) && e in em && bound <= bound' && NotDropped(d.slots, t, e, s)
    ensures HistoryOk(SetData(em, e, s, d), li, t, bound')
  {
  }

  /** One more event, which no living emitter, listener or entry contradicts. */
  lemma HistoryAdd(em: Emitters, li: Listeners, t: seq<Event>, bound: nat, ev: Event)
    requires HistoryOk(em, li, t, bound) && TraceOk(t + [ev])
    requires ev.EmitterGone? ==> ev.emitter !in em
    requires ev.ListenerGone? ==> ev.listener !in li
    requires ev.Dropped? ==> ev.id < bound
    requires ev.Dropped? && ev.emitter in em && ev.signal in em[ev.emitter] ==>
               forall i :: 0 <= i < |em[ev.emitter][ev.signal].slots| && em[ev.emitter][ev.signal].slots[i].id == ev.id
                 ==> em[ev.emitter][ev.signal].slots[i].state.Disconnected?
    ensures HistoryOk(em, li, t + [ev], bound)
  {
  }

  // ---- dropping an entry ----

  /** The signal's data after the drop of its first match. */
  function Less(d: SignalData, l: int, m: int): SignalData {
    SignalData(d.activation, DropFirst(d.slots, l, m, d.activation.Some?),
               d.dirty || (d.activation.Some? && FirstMatch(d.slots, l, m) < |d.slots|))
  }

  lemma LessOk(d: SignalData, bound: nat, l: int, m: int)
    requires DataOk(d, bound)
    ensures DataOk(Less(d, l, m), bound)
  {
  }

  /** The id of the live entry that goes. */
  lemma LessDrops(d: SignalData, bound: nat, l: int, m: int)
    requires DataOk(d, bound)
    ensures var xs, i := d.slots, FirstMatch(d.slots, l, m);
            i < |xs| ==> forall j :: 0 <= j < |Less(d, l, m).slots| && Less(d, l, m).slots[j].id == xs[i].id
                           ==> Less(d, l, m).slots[j].state.Disconnected?
  {
  }

  lemma LessNotDropped(d: SignalData, l: int, m: int, t: seq<Event>, e: int, s: int)
    requires NotDropped(d.slots, t, e, s)
    ensures NotDropped(Less(d, l, m).slots, t, e, s)
  {
  }

  /** Under an emission the list only gets a mark. */
  lemma LessKept(d: SignalData, l: int, m: int, t: seq<Event>, t': seq<Event>, e: int, s: int)
    requires d.activation.Some? && t <= t'
    requires var i := FirstMatch(d.slots, l, m);
             i < |d.slots| && !d.slots[i].state.Disconnected? ==> Since(t, t', Dropped(e, s, d.slots[i].id))
    ensures Kept(d.slots, Less(d, l, m).slots, t, t', e, s)
  {
  }

  /** The invariants and the enclosing emissions after a drop. */
  lemma DroppedOne(em: Emitters, li: Listeners, st: seq<Activation>, t: seq<Event>, bound: nat,
                   e: int, s: int, l: int, m: int, ev: seq<Event>)
    requires StackOk(em, st, t) && ListsOk(em, bound) && HistoryOk(em, li, t, bound)
    requires e in em && s in em[e]
    requires var xs, i := em[e][s].slots, FirstMatch(em[e][s].slots, l, m);
             ev == if i < |xs| && !xs[i].state.Disconnected? then [Dropped(e, s, xs[i].id)] else []
    ensures var em', t' := SetData(em, e, s, Less(em[e][s], l, m)), t + ev;
            && StackOk(em', st, t') && ListsOk(em', bound) && HistoryOk(em', li, t', bound)
            && Evolved(em, st, t, em', st, t')
  {
    hide StackOk, NotDropped, Live, Kept, DropFirst;
    var d, d' := em[e][s], Less(em[e][s], l, m);
    var em', t' := SetData(em, e, s, d'), t + ev;
    LessOk(d, bound, l, m);
    LessDrops(d, bound, l, m);
    LessNotDropped(d, l, m, t, e, s);
    StackSet(em, st, t, t', e, s, d');
    ListsSet(em, bound, bound, e, s, d');
    HistorySet(em, li, t, bound, bound, e, s, d');
    if ev != [] {
      TraceAdd(t, ev[0]);
      HistoryAdd(em', li, t, bound, ev[0]);
      assert t' == t + [ev[0]];
    } else {
      assert t' == t;
    }
    forall e', s' | e' in em && TopOf(st, e', s').Some? ensures Survives(em, t, em', t', e', s') {
      if e' == e && s' == s { LessKept(d, l, m, t, t', e, s); } else { KeptSame(SlotsOf(em, e', s'), t, t', e', s'); }
    }
  }

  // ---- connecting an entry ----

  ghost predicate IsMore(em: Emitters, bound: nat, e: int, s: int, l: int, m: int, d: SignalData)
    requires e in em
  {
    var d0 := if s in em[e] then em[e][s] else SignalData(None, [], false);
    if d0.activation.Some? then d == SignalData(d0.activation, d0.slots + [Slot(bound, l, m, Connecting)], true)
    else d == SignalData(None, d0.slots + [Slot(bound, l, m, Connected)], d0.dirty)
  }

  lemma ConnectedOne(em: Emitters, li: Listeners, st: seq<Activation>, t: seq<Event>, bound: nat,
                     e: int, s: int, l: int, m: int, d: SignalData)
    requires StackOk(em, st, t) && ListsOk(em, bound) && HistoryOk(em, li, t, bound) && Mirrored(em, li)
    requires e in em && l in li && IsMore(em, bound, e, s, l, m, d)
    ensures var em', li' := SetData(em, e, s, d), SetSignals(li, l, e, SignalsOf(li, l, e) + [Signal(s, m)]);
            && StackOk(em', st, t) && ListsOk(em', bound + 1) && HistoryOk(em', li', t, bound + 1) && Mirrored(em', li')
            && Evolved(em, st, t, em', st, t) && d.activation == TopOf(st, e, s)
  {
    var em', ss := SetData(em, e, s, d), SignalsOf(li, l, e) + [Signal(s, m)];
    MoreOk(em, st, t, bound, e, s, l, m, d);
    StackSet(em, st, t, t, e, s, d);
    ListsSet(em, bound, bound + 1, e, s, d);
    HistorySet(em, li, t, bound, bound + 1, e, s, d);
    assert s in em'[e] && em'[e][s] == d;
    MoreMirrored(em, li, bound, e, s, l, m, d);
    forall e', s' | e' in em && TopOf(st, e', s').Some? ensures Survives(em, t, em', t, e', s') {
      if e' == e && s' == s {
        assert d.slots[..|d.slots| - 1] == SlotsOf(em, e, s);
      } else {
        assert SlotsOf(em', e', s') == SlotsOf(em, e', s');
      }
    }
  }

  lemma MoreOk(em: Emitters, st: seq<Activation>, t: seq<Event>, bound: nat, e: int, s: int, l: int, m: int, d: SignalData)
    requires ListsOk(em, bound) && e in em && IsMore(em, bound, e, s, l, m, d)
    requires s in em[e] ==> NotDropped(em[e][s].slots, t, e, s)
    requires forall e', s', id :: Dropped(e', s', id) in t ==> id < bound
    ensures DataOk(d, bound + 1) && NotDropped(d.slots, t, e, s)
    ensures d.activation == if s in em[e] then em[e][s].activation else None
  {
    if s in em[e] { assert DataOk(em[e][s], bound); }
  }

  lemma MoreMirrored(em: Emitters, li: Listeners, bound: nat, e: int, s: int, l: int, m: int, d: SignalData)
    requires Mirrored(em, li) && e in em && l in li && IsMore(em, bound, e, s, l, m, d)
    ensures Mirrored(SetData(em, e, s, d), SetSignals(li, l, e, SignalsOf(li, l, e) + [Signal(s, m)]))
  {
    hide Live, Count, Mirrored;
    var xs, x, ss := SlotsOf(em, e, s), d.slots[|d.slots| - 1], SignalsOf(li, l, e);
    assert d.slots == xs + [x];
    forall l', m' ensures Live(d.slots, l', m') - Live(xs, l', m') == if l' == l && m' == m then 1 else 0 {
      LiveConcat(xs, [x], l', m');
      LiveOne(x, l', m');
    }
    forall s', m' ensures Count(ss + [Signal(s, m)], s', m') - Count(ss, s', m') == if s' == s && m' == m then 1 else 0 {
      CountConcat(ss, [Signal(s, m)], s', m');
      CountOne(Signal(s, m), s', m');
    }
    MirrorBoth(em, li, e, s, d, l, ss + [Signal(s, m)]);
  }

  // ---- disconnecting an entry ----

  /** After a disconnection the tables match if and only if the drop hit a live entry or there was none. */
  lemma LessMirrored(em: Emitters, li: Listeners, e: int, s: int, l: int, m: int)
    requires Mirrored(em, li) && e in em && s in em[e] && l in li && e in li[l]
    ensures Mirrored(SetData(em, e, s, Less(em[e][s], l, m)), SetSignals(li, l, e, RemoveSignal(li[l][e], s, m)))
            <==> DropMatches(em[e][s].slots, l, m)
  {
    hide Live, Count, DropFirst, RemoveSignal;
    var d, d', ss := em[e][s], Less(em[e][s], l, m), li[l][e];
    assert Live(SlotsOf(em, e, s), l, m) == Count(SignalsOf(li, l, e), s, m);
    if FirstLive(d.slots, l, m) { LiveSome(d.slots, l, m); }
    forall l', m' { DropFirstLive(d.slots, l, m, d.activation.Some?, l', m'); }
    forall s', m' { RemoveSignalCount(ss, s, m, s', m'); }
    if DropMatches(d.slots, l, m) {
      MirrorBoth(em, li, e, s, d', l, RemoveSignal(ss, s, m));
    } else {
      var em', li' := SetData(em, e, s, d'), SetSignals(li, l, e, RemoveSignal(ss, s, m));
      assert SlotsOf(em', e, s) == d'.slots && SignalsOf(li', l, e) == RemoveSignal(ss, s, m);
      assert Live(SlotsOf(em', e, s), l, m) != Count(SignalsOf(li', l, e), s, m);
    }
  }

  lemma HistoryListeners(em: Emitters, li: Listeners, li': Listeners, t: seq<Event>, bound: nat)
    requires HistoryOk(em, li, t, bound) && li'.Keys == li.Keys
    ensures HistoryOk(em, li', t, bound)
  {
  }

  lemma ActivationIsTop(em: Emitters, st: seq<Activation>, t: seq<Event>, e: int, s: int)
    requires StackOk(em, st, t) && e in em && s in em[e]
    ensures em[e][s].activation == TopOf(st, e, s)
  {
  }

  /** Without a list for the signal there is no emission of it. */
  lemma NoSignal(em: Emitters, st: seq<Activation>, t: seq<Event>, e: int, s: int, l: int, m: int)
    requires StackOk(em, st, t) && e in em && s !in em[e]
    ensures TopOf(st, e, s).None? && DropFirst([], l, m, false) == []
  {
    TopIs(st, e, s);
    if TopOf(st, e, s).Some? { FrameSignal(em, st, t, TopOf(st, e, s).value); }
  }

  lemma NoSignalRecord(em: Emitters, li: Listeners, e: int, s: int, l: int, m: int)
    requires Mirrored(em, li) && SlotsOf(em, e, s) == []
    ensures DropMatches(SlotsOf(em, e, s), l, m) && RemoveSignal(SignalsOf(li, l, e), s, m) == SignalsOf(li, l, e)
  {
    assert Live(SlotsOf(em, e, s), l, m) == Count(SignalsOf(li, l, e), s, m);
    CountSome(SignalsOf(li, l, e), s, m);
  }

  lemma FrameSignal(em: Emitters, st: seq<Activation>, t: seq<Event>, i: nat)
    requires StackOk(em, st, t) && i < |st| && st[i].emitter in em
    ensures st[i].signal in em[st[i].emitter]
  {
    assert FrameOk(em, st, t, i);
  }

  // ---- the destructor of an emitter ----

  /** The head of the list is forgotten together with its record. */
  lemma ForgetMirrored(em: Emitters, li: Listeners, e: int, s: int)
    requires Mirrored(em, li) && e in em && s in em[e] && em[e][s].slots != [] && !em[e][s].slots[0].state.Disconnected?
    requires em[e][s].slots[0].receiver in li && e in li[em[e][s].slots[0].receiver]
    ensures var d, x := em[e][s], em[e][s].slots[0];
            Mirrored(SetData(em, e, s, d.(slots := d.slots[1..])),
                     SetSignals(li, x.receiver, e, RemoveSignal(li[x.receiver][e], s, x.slot)))
  {
    hide Live, Count, RemoveSignal;
    var d, x := em[e][s], em[e][s].slots[0];
    var ss := li[x.receiver][e];
    LiveReceiver(em, li, e, s, 0);
    forall l, m ensures Live(d.slots[1..], l, m) - Live(d.slots, l, m) == if Matches(x, l, m) then -1 else 0 {
      assert d.slots == [x] + d.slots[1..];
      LiveConcat([x], d.slots[1..], l, m);
      LiveOne(x, l, m);
    }
    forall s', m' { RemoveSignalCount(ss, s, x.slot, s', m'); }
    MirrorBoth(em, li, e, s, d.(slots := d.slots[1..]), x.receiver, RemoveSignal(ss, s, x.slot));
  }

  lemma DeadMirrored(em: Emitters, li: Listeners, e: int, s: int)
    requires Mirrored(em, li) && e in em && s in em[e] && em[e][s].slots != [] && em[e][s].slots[0].state.Disconnected?
    ensures Mirrored(SetData(em, e, s, em[e][s].(slots := em[e][s].slots[1..])), li)
  {
    hide Live, Count;
    var d, x := em[e][s], em[e][s].slots[0];
    forall l, m ensures Live(d.slots[1..], l, m) == Live(d.slots, l, m) {
      assert d.slots == [x] + d.slots[1..];
      LiveConcat([x], d.slots[1..], l, m);
      LiveOne(x, l, m);
    }
    MirrorSame(em, li, e, s, d.(slots := d.slots[1..]));
  }

  lemma SetSlotsOf(g: Emitters, e: int, s: int, d: SignalData)
    requires e in g
    ensures SlotsOf(g, e, s) == (if s in g[e] then g[e][s].slots else []) && SlotsOf(SetData(g, e, s, d), e, s) == d.slots
    ensures forall e', s' :: e' != e || s' != s ==> SlotsOf(SetData(g, e, s, d), e', s') == SlotsOf(g, e', s')
  {
  }

  lemma SetSignalsOf(li: Listeners, l: int, e: int, ss: seq<Signal>)
    requires l in li
    ensures SignalsOf(li, l, e) == (if e in li[l] then li[l][e] else []) && SignalsOf(SetSignals(li, l, e, ss), l, e) == ss
    ensures forall e', l' :: e' != e || l' != l ==> SignalsOf(SetSignals(li, l, e, ss), l', e') == SignalsOf(li, l', e')
  {
  }

  lemma SetTwice(g: Emitters, e: int, s: int, a: SignalData, b: SignalData)
    requires e in g
    ensures SetData(SetData(g, e, s, a), e, s, b) == SetData(g, e, s, b)
  {
    assert SetData(SetData(g, e, s, a), e, s, b)[e] == g[e][s := b];
  }

  lemma SetSame(g: Emitters, e: int, s: int)
    requires e in g && s in g[e]
    ensures SetData(g, e, s, g[e][s]) == g
  {
    assert g[e][s := g[e][s]] == g[e];
  }

  lemma SameFramesRefl(st: seq<Activation>)
    ensures SameFrames(st, st)
  {
  }

  /** The innermost activations of some signals of an emitter are invalidated, and nothing else has changed. */
  ghost predicate Marked(st: seq<Activation>, st': seq<Activation>, e: int, done: set<int>)
  {
    && SameFrames(st, st')
    && forall i :: 0 <= i < |st| ==>
         (st'[i].invalidated <==> st[i].invalidated || (st[i].emitter == e && st[i].signal in done && TopOf(st, e, st[i].signal) == Some(i)))
  }

  lemma MarkOne(em: Emitters, st: seq<Activation>, st': seq<Activation>, t: seq<Event>, e: int, done: set<int>, s: int)
    requires StackOk(em, st, t) && Marked(st, st', e, done) && e in em && s in em[e]
    ensures var a := em[e][s].activation;
            if a.Some? then a.value < |st'| && Marked(st, st'[a.value := st'[a.value].(invalidated := true)], e, done + {s})
            else Marked(st, st', e, done + {s})
  {
    TopIs(st, e, s);
  }

  /** The records of all other emitters are as before. */
  ghost predicate OtherRecords(li: Listeners, li': Listeners, e: int) {
    forall l, e' :: e' != e ==> SignalsOf(li', l, e') == SignalsOf(li, l, e')
  }

  lemma SameRecords(li: Listeners, e: int)
    ensures OtherRecords(li, li, e)
  {
  }

  lemma RecordsLater(li0: Listeners, li1: Listeners, li: Listeners, e: int)
    requires OtherRecords(li0, li1, e) && OtherRecords(li1, li, e)
    ensures OtherRecords(li0, li, e)
  {
  }

  lemma EmptyEmitter(g: Emitters, li: Listeners, e: int)
    requires Mirrored(g, li) && e in g && forall s :: s in g[e] ==> g[e][s].slots == []
    ensures Mirrored(g - {e}, li) && forall l :: SignalsOf(li, l, e) == []
  {
    forall s, l, m ensures Live(SlotsOf(g, e, s), l, m) == 0 { assert SlotsOf(g, e, s) == []; }
    MirrorEmitterGone(g, li, e);
    forall l ensures SignalsOf(li, l, e) == [] {
      var ss := SignalsOf(li, l, e);
      if ss != [] { RecordedEmitter(g, li, l, e, 0); }
    }
  }

  /** The invariants after an emitter's destructor. */
  lemma GoneEmitter(em: Emitters, li: Listeners, st: seq<Activation>, st': seq<Activation>, t: seq<Event>, bound: nat, e: int)
    requires StackOk(em, st, t) && ListsOk(em, bound) && HistoryOk(em, li, t, bound)
    requires e in em && Marked(st, st', e, em[e].Keys)
    ensures var em', t' := em - {e}, t + [EmitterGone(e)];
            && StackOk(em', st', t') && ListsOk(em', bound) && HistoryOk(em', li, t', bound)
            && Evolved(em, st, t, em', st', t')
  {
    var ev := EmitterGone(e);
    var em', t' := em - {e}, t + [ev];
    GoneStack(em, st, st', t, e);
    TraceAdd(t, ev);
    HistoryLess(em, li, t, bound, e);
    HistoryAdd(em', li, t, bound, ev);
    assert t'[|t|..] == [ev];
    forall e', s | e' in em && TopOf(st, e', s).Some? ensures Survives(em, t, em', t', e', s) {
      if e' != e {
        assert SlotsOf(em', e', s) == SlotsOf(em, e', s);
        KeptSame(SlotsOf(em, e', s), t, t', e', s);
      } else {
        assert t'[|t|..][0] == ev;
      }
    }
  }

  lemma HistoryLess(em: Emitters, li: Listeners, t: seq<Event>, bound: nat, e: int)
    requires HistoryOk(em, li, t, bound)
    ensures HistoryOk(em - {e}, li, t, bound)
  {
  }

  lemma GoneStack(em: Emitters, st: seq<Activation>, st': seq<Activation>, t: seq<Event>, e: int)
    requires StackOk(em, st, t) && e in em && Marked(st, st', e, em[e].Keys)
    ensures StackOk(em - {e}, st', t + [EmitterGone(e)])
  {
    var em', t' := em - {e}, t + [EmitterGone(e)];
    forall e', s { SameTop(st, st', e', s); }
    forall i | 0 <= i < |st'| ensures FrameOk(em', st', t', i) {
      assert FrameOk(em, st, t, i);
      assert t'[|t|] == EmitterGone(e);
    }
    forall i | 0 <= i < |st'| ensures st'[i].next == TopOf(st'[..i], st'[i].emitter, st'[i].signal) {
      SameTop(st[..i], st'[..i], st[i].emitter, st[i].signal);
    }
  }

  lemma EmptyOrNot(todo: set<int>)
    ensures todo == {} || exists s :: s in todo
  {
    if forall s :: s !in todo { assert todo == {}; }
  }

  // ---- the destructor of a listener ----

  /** What `c` drops of a pair leave of its `n` live entries; `first` says whether its first match was live. */
  function Left(n: nat, c: nat, active: bool, first: bool): int {
    if c == 0 then n else if active then n - (if first then 1 else 0) else n - c
  }

  ghost predicate LeftOne(xs: seq<Slot>, ys: seq<Slot>, l: int, m: int, active: bool, c: nat) {
    && Live(ys, l, m) == Left(Live(xs, l, m), c, active, FirstLive(xs, l, m))
    && (active ==> (FirstLive(ys, l, m) <==> FirstLive(xs, l, m) && c == 0))
  }

  /** The lists of emitter `e` after a drop for each of the records `done` of listener `l`. */
  ghost predicate LeftOver(em0: Emitters, em: Emitters, st: seq<Activation>, l: int, e: int, done: seq<Signal>) {
    forall s, m :: LeftOne(SlotsOf(em0, e, s), SlotsOf(em, e, s), l, m, TopOf(st, e, s).Some?, Count(done, s, m))
  }

  /** The other listeners keep their live entries. */
  ghost predicate OthersLive(em0: Emitters, em: Emitters, l: int) {
    forall e, s, l', m :: l' != l ==> Live(SlotsOf(em, e, s), l', m) == Live(SlotsOf(em0, e, s), l', m)
  }

  lemma LeftStart(em: Emitters, st: seq<Activation>, l: int, e: int)
    ensures LeftOver(em, em, st, l, e, []) && OthersLive(em, em, l)
  {
    hide Live, FirstLive;
  }

  lemma LeftStep(em0: Emitters, em: Emitters, st: seq<Activation>, t: seq<Event>, bound: nat, l: int, e: int, done: seq<Signal>, r: Signal)
    requires LeftOver(em0, em, st, l, e, done) && OthersLive(em0, em, l)
    requires StackOk(em, st, t) && ListsOk(em, bound) && e in em && r.signal in em[e]
    requires Count(done, r.signal, r.slot) < Live(SlotsOf(em0, e, r.signal), l, r.slot)
    ensures var em' := SetData(em, e, r.signal, Less(em[e][r.signal], l, r.slot));
            LeftOver(em0, em', st, l, e, done + [r]) && OthersLive(em0, em', l)
  {
    hide Live, Count, FirstLive, DropFirst, StackOk, ListsOk;
    var d := em[e][r.signal];
    var em' := SetData(em, e, r.signal, Less(d, l, r.slot));
    ActivationIsTop(em, st, t, e, r.signal);
    QuietList(em, bound, e, r.signal, l, r.slot);
    forall s, m ensures LeftOne(SlotsOf(em0, e, s), SlotsOf(em', e, s), l, m, TopOf(st, e, s).Some?, Count(done + [r], s, m)) {
      assert LeftOne(SlotsOf(em0, e, s), SlotsOf(em, e, s), l, m, TopOf(st, e, s).Some?, Count(done, s, m));
      CountConcat(done, [r], s, m);
      CountOne(r, s, m);
      if s == r.signal { DroppedLeft(d, l, r.slot, m); } else { assert SlotsOf(em', e, s) == SlotsOf(em, e, s); }
    }
    forall e', s, l', m | l' != l ensures Live(SlotsOf(em', e', s), l', m) == Live(SlotsOf(em0, e', s), l', m) {
      DroppedOthers(em, e, r.signal, l, r.slot, e', s, l', m);
    }
  }

  lemma QuietList(em: Emitters, bound: nat, e: int, s: int, l: int, m: int)
    requires ListsOk(em, bound) && e in em && s in em[e]
    ensures em[e][s].activation.None? ==> (FirstLive(em[e][s].slots, l, m) <==> Live(em[e][s].slots, l, m) > 0)
  {
    assert DataOk(em[e][s], bound);
    if em[e][s].activation.None? { ConnectedMatches(em[e][s].slots, l, m); }
  }

  lemma DroppedLeft(d: SignalData, l: int, m: int, m': int)
    ensures var ys := Less(d, l, m).slots;
            && Live(ys, l, m') == Live(d.slots, l, m') - (if m' == m && FirstLive(d.slots, l, m) then 1 else 0)
            && (d.activation.Some? ==> (FirstLive(ys, l, m') <==> FirstLive(d.slots, l, m') && m' != m))
  {
    hide Live;
    DropFirstLive(d.slots, l, m, d.activation.Some?, l, m');
    MarkedFirst(d.slots, l, m, l, m');
  }

  lemma DroppedOthers(em: Emitters, e: int, s: int, l: int, m: int, e': int, s': int, l': int, m': int)
    requires e in em && s in em[e] && l' != l
    ensures Live(SlotsOf(SetData(em, e, s, Less(em[e][s], l, m)), e', s'), l', m') == Live(SlotsOf(em, e', s'), l', m')
  {
    hide Live, DropFirst;
    DropFirstLive(em[e][s].slots, l, m, em[e][s].activation.Some?, l', m');
  }

  /** What happens at other emitters leaves the count of an emitter alone. */
  lemma LeftSame(em0: Emitters, em0': Emitters, em: Emitters, em': Emitters, st: seq<Activation>, l: int, e: int, done: seq<Signal>)
    requires LeftOver(em0, em, st, l, e, done)
    requires forall s :: SlotsOf(em0', e, s) == SlotsOf(em0, e, s) && SlotsOf(em', e, s) == SlotsOf(em, e, s)
    ensures LeftOver(em0', em', st, l, e, done)
  {
    hide LeftOne, Count;
    forall s, m ensures LeftOne(SlotsOf(em0', e, s), SlotsOf(em', e, s), l, m, TopOf(st, e, s).Some?, Count(done, s, m)) {
      assert LeftOne(SlotsOf(em0, e, s), SlotsOf(em, e, s), l, m, TopOf(st, e, s).Some?, Count(done, s, m));
    }
  }

  lemma OthersLater(em0: Emitters, em1: Emitters, em2: Emitters, l: int)
    requires OthersLive(em0, em1, l) && OthersLive(em1, em2, l)
    ensures OthersLive(em0, em2, l)
  {
    forall e, s, l', m | l' != l ensures Live(SlotsOf(em2, e, s), l', m) == Live(SlotsOf(em0, e, s), l', m) {
      assert Live(SlotsOf(em1, e, s), l', m) == Live(SlotsOf(em0, e, s), l', m);
    }
  }

  /** Before its drop a record still has an entry to drop, if no earlier twin has come in between. */
  lemma RecordLeft(em0: Emitters, signals: seq<Signal>, l: int, e: int, i: nat)
    requires i < |signals| && forall s, m :: Live(SlotsOf(em0, e, s), l, m) == Count(signals, s, m)
    ensures var r := signals[i];
            e in em0 && r.signal in em0[e] && Count(signals[..i], r.signal, r.slot) < Live(SlotsOf(em0, e, r.signal), l, r.slot)
  {
    hide Live, Count;
    var r := signals[i];
    assert signals == signals[..i] + ([r] + signals[i + 1..]);
    CountConcat(signals[..i], [r] + signals[i + 1..], r.signal, r.slot);
    CountConcat([r], signals[i + 1..], r.signal, r.slot);
    CountOne(r, r.signal, r.slot);
    LiveSome(SlotsOf(em0, e, r.signal), l, r.slot);
  }

  lemma RecordsOf(em0: Emitters, em: Emitters, li: Listeners, l: int, e: int)
    requires Mirrored(em0, li) && l in li && e in li[l] && forall s :: SlotsOf(em, e, s) == SlotsOf(em0, e, s)
    ensures forall s, m :: Live(SlotsOf(em, e, s), l, m) == Count(li[l][e], s, m)
  {
    forall s, m ensures Live(SlotsOf(em, e, s), l, m) == Count(li[l][e], s, m) {
      assert Live(SlotsOf(em0, e, s), l, m) == Count(SignalsOf(li, l, e), s, m);
    }
  }

  /** Each pair of the listener at a signal under emission has one live entry, and that is the first match. */
  predicate ForgetMatches(em: Emitters, li: Listeners, st: seq<Activation>, l: int)
    requires l in li
  {
    forall e, k :: e in li[l] && 0 <= k < |li[l][e]| ==> RecordMatches(em, st, l, e, li[l][e][k])
  }

  predicate RecordMatches(em: Emitters, st: seq<Activation>, l: int, e: int, r: Signal) {
    TopOf(st, e, r.signal).Some? ==> Live(SlotsOf(em, e, r.signal), l, r.slot) <= 1 && FirstLive(SlotsOf(em, e, r.signal), l, r.slot)
  }

  lemma NothingLeft(em0: Emitters, em: Emitters, li: Listeners, st: seq<Activation>, l: int, e: int, s: int, m: int)
    requires Mirrored(em0, li) && l in li && e in li[l] && LeftOver(em0, em, st, l, e, li[l][e])
    ensures Live(SlotsOf(em, e, s), l, m) == 0 <==> Count(li[l][e], s, m) == 0 || RecordMatches(em0, st, l, e, Signal(s, m))
  {
    hide Live, Count, FirstLive;
    assert Live(SlotsOf(em0, e, s), l, m) == Count(SignalsOf(li, l, e), s, m);
    assert LeftOne(SlotsOf(em0, e, s), SlotsOf(em, e, s), l, m, TopOf(st, e, s).Some?, Count(li[l][e], s, m));
  }

  /** After a listener's destructor the tables match if and only if every drop found the one live entry. */
  lemma ForgottenMirrored(em0: Emitters, em: Emitters, li: Listeners, st: seq<Activation>, l: int)
    requires Mirrored(em0, li) && l in li && OthersLive(em0, em, l)
    requires forall e :: e in li[l] ==> LeftOver(em0, em, st, l, e, li[l][e])
    requires forall e, s :: e !in li[l] ==> SlotsOf(em, e, s) == SlotsOf(em0, e, s)
    ensures Mirrored(em, li - {l}) <==> ForgetMatches(em0, li, st, l)
    ensures Mirrored(em, li - {l}) ==> forall e, s, m :: Live(SlotsOf(em, e, s), l, m) == 0
  {
    hide Live, Count, LeftOver, RecordMatches, OthersLive;
    var li' := li - {l};
    if ForgetMatches(em0, li, st, l) {
      forall e, s, l', m ensures Live(SlotsOf(em, e, s), l', m) == Count(SignalsOf(li', l', e), s, m) {
        ForgottenPair(em0, em, li, st, l, e, s, l', m);
      }
    }
    if Mirrored(em, li') {
      forall e, s, m ensures Live(SlotsOf(em, e, s), l, m) == 0 {
        assert SignalsOf(li', l, e) == [] && Live(SlotsOf(em, e, s), l, m) == Count(SignalsOf(li', l, e), s, m);
        NoRecords(s, m);
      }
      forall e, k | e in li[l] && 0 <= k < |li[l][e]| ensures RecordMatches(em0, st, l, e, li[l][e][k]) {
        var r := li[l][e][k];
        CountSome(li[l][e], r.signal, r.slot);
        NothingLeft(em0, em, li, st, l, e, r.signal, r.slot);
      }
    }
  }

  lemma NoRecords(s: int, m: int)
    ensures Count([], s, m) == 0
  {
  }

  lemma ForgottenPair(em0: Emitters, em: Emitters, li: Listeners, st: seq<Activation>, l: int, e: int, s: int, l': int, m: int)
    requires Mirrored(em0, li) && l in li && OthersLive(em0, em, l) && ForgetMatches(em0, li, st, l)
    requires e in li[l] ==> LeftOver(em0, em, st, l, e, li[l][e])
    requires e !in li[l] ==> SlotsOf(em, e, s) == SlotsOf(em0, e, s)
    ensures Live(SlotsOf(em, e, s), l', m) == Count(SignalsOf(li - {l}, l', e), s, m)
  {
    hide Live, Count, LeftOver, RecordMatches;
    assert Live(SlotsOf(em0, e, s), l', m) == Count(SignalsOf(li, l', e), s, m);
    NoRecords(s, m);
    if l' == l && e in li[l] {
      NothingLeft(em0, em, li, st, l, e, s, m);
      CountSome(li[l][e], s, m);
    }
  }

  lemma GoneListener(em: Emitters, li: Listeners, st: seq<Activation>, t: seq<Event>, bound: nat, l: int)
    requires StackOk(em, st, t) && HistoryOk(em, li, t, bound)
    ensures var t' := t + [ListenerGone(l)];
            StackOk(em, st, t') && HistoryOk(em, li - {l}, t', bound) && Evolved(em, st, t, em, st, t')
  {
    var ev := ListenerGone(l);
    forall i | 0 <= i < |st| ensures FrameOk(em, st, t + [ev], i) { assert FrameOk(em, st, t, i); }
    TraceAdd(t, ev);
    assert HistoryOk(em, li - {l}, t, bound);
    HistoryAdd(em, li - {l}, t, bound, ev);
    forall e, s | e in em && TopOf(st, e, s).Some? ensures Survives(em, t, em, t + [ev], e, s) {
      KeptSame(SlotsOf(em, e, s), t, t + [ev], e, s);
    }
  }

  // ---- births ----

  lemma BornEmitter(em: Emitters, li: Listeners, st: seq<Activation>, t: seq<Event>, bound: nat, e: int)
    requires StackOk(em, st, t) && ListsOk(em, bound) && HistoryOk(em, li, t, bound) && Mirrored(em, li)
    requires e !in em && EmitterGone(e) !in t
    ensures var em' := em[e := map[]];
            && StackOk(em', st, t) && ListsOk(em', bound) && HistoryOk(em', li, t, bound) && Mirrored(em', li)
            && Evolved(em, st, t, em', st, t)
  {
    hide Live, Count, TopOf;
    var em' := em[e := map[]];
    forall i | 0 <= i < |st| ensures FrameOk(em', st, t, i) { assert FrameOk(em, st, t, i); }
    forall e', s ensures SlotsOf(em', e', s) == SlotsOf(em, e', s) {}
    EvolvedSame(em, st, t, em');
  }

  lemma BornListener(em: Emitters, li: Listeners, st: seq<Activation>, t: seq<Event>, bound: nat, l: int)
    requires HistoryOk(em, li, t, bound) && Mirrored(em, li) && l !in li && ListenerGone(l) !in t
    ensures var li' := li[l := map[]];
            HistoryOk(em, li', t, bound) && Mirrored(em, li') && Evolved(em, st, t, em, st, t)
  {
    hide Live, Count;
    var li' := li[l := map[]];
    forall l', e ensures SignalsOf(li', l', e) == SignalsOf(li, l', e) {}
    EvolvedSame(em, st, t, em);
  }

  // ---- activations ----

  lemma PushStack(em: Emitters, st: seq<Activation>, t: seq<Event>, e: int, s: int)
    requires StackOk(em, st, t) && e in em && s in em[e]
    ensures var d := em[e][s];
            StackOk(SetData(em, e, s, d.(activation := Some(|st|))), st + [Activation(e, s, d.activation, false)], t)
  {
    var d := em[e][s];
    var em', st' := SetData(em, e, s, d.(activation := Some(|st|))), st + [Activation(e, s, d.activation, false)];
    assert st'[..|st|] == st;
    forall i | 0 <= i < |st'| ensures st'[i].next == TopOf(st'[..i], st'[i].emitter, st'[i].signal) {
      if i < |st| { assert st'[..i] == st[..i]; }
    }
    forall i | 0 <= i < |st'| ensures FrameOk(em', st', t, i) {
      if i < |st| {
        assert FrameOk(em, st, t, i);
        TopIs(st, st[i].emitter, st[i].signal);
      }
    }
  }

  /** Another `activation` field alone changes nothing else. */
  lemma SameSlots(em: Emitters, li: Listeners, t: seq<Event>, bound: nat, e: int, s: int, d: SignalData)
    requires ListsOk(em, bound) && HistoryOk(em, li, t, bound) && Mirrored(em, li)
    requires e in em && s in em[e] && d.slots == em[e][s].slots && d.dirty == em[e][s].dirty && d.activation.Some?
    ensures var em' := SetData(em, e, s, d); ListsOk(em', bound) && HistoryOk(em', li, t, bound) && Mirrored(em', li)
  {
    assert DataOk(em[e][s], bound);
    ListsSet(em, bound, bound, e, s, d);
    HistorySet(em, li, t, bound, bound, e, s, d);
    MirrorSame(em, li, e, s, d);
  }

  /** The innermost frame: its emitter lives exactly when it is not invalidated. */
  lemma TopFrame(em: Emitters, st: seq<Activation>, t: seq<Event>)
    requires StackOk(em, st, t) && st != []
    ensures var a := st[|st| - 1];
            && (a.invalidated <==> a.emitter !in em)
            && (a.emitter in em ==> a.signal in em[a.emitter] && em[a.emitter][a.signal].activation == Some(|st| - 1))
            && (a.emitter !in em ==> EmitterGone(a.emitter) in t)
            && a.next == TopOf(st[..|st| - 1], a.emitter, a.signal)
            && (a.next.Some? ==> a.next.value < |st| - 1)
  {
    var a := st[|st| - 1];
    assert FrameOk(em, st, t, |st| - 1);
    TopIs(st[..|st| - 1], a.emitter, a.signal);
  }

  lemma PopAlive(em: Emitters, li: Listeners, st: seq<Activation>, t: seq<Event>, bound: nat, d: SignalData)
    requires StackOk(em, st, t) && ListsOk(em, bound) && HistoryOk(em, li, t, bound) && Mirrored(em, li) && st != []
    requires var a := st[|st| - 1];
             && a.emitter in em && a.signal in em[a.emitter] && d.activation == a.next
             && (if a.next.None? && em[a.emitter][a.signal].dirty
                 then d.slots == Sweep(em[a.emitter][a.signal].slots) && !d.dirty
                 else d.slots == em[a.emitter][a.signal].slots && d.dirty == em[a.emitter][a.signal].dirty)
    ensures var a, st' := st[|st| - 1], st[..|st| - 1];
            var em' := SetData(em, a.emitter, a.signal, d);
            && StackOk(em', st', t) && ListsOk(em', bound) && HistoryOk(em', li, t, bound) && Mirrored(em', li)
            && Evolved(em, st', t, em', st', t)
  {
    hide Live, Count;
    var a, st' := st[|st| - 1], st[..|st| - 1];
    var e, s := a.emitter, a.signal;
    var em', d0 := SetData(em, e, s, d), em[e][s];
    PopStack(em, st, t, d);
    assert DataOk(d0, bound) && NotDropped(d0.slots, t, e, s);
    SweptData(d0, d, bound, t, e, s);
    ListsSet(em, bound, bound, e, s, d);
    HistorySet(em, li, t, bound, bound, e, s, d);
    MirrorSame(em, li, e, s, d);
    SameFramesRefl(st');
    forall e', s' | e' in em && TopOf(st', e', s').Some? ensures Survives(em, t, em', t, e', s') {
      if e' == e && s' == s { assert a.next == TopOf(st', e, s); }
      KeptSame(SlotsOf(em, e', s'), t, t, e', s');
    }
  }

  lemma SweptData(d0: SignalData, d: SignalData, bound: nat, t: seq<Event>, e: int, s: int)
    requires DataOk(d0, bound) && NotDropped(d0.slots, t, e, s)
    requires if d.activation.None? && d0.dirty then d.slots == Sweep(d0.slots) && !d.dirty
             else d.slots == d0.slots && d.dirty == d0.dirty
    ensures DataOk(d, bound) && NotDropped(d.slots, t, e, s)
    ensures forall l, m :: Live(d.slots, l, m) == Live(d0.slots, l, m)
  {
    forall l, m { SweepLive(d0.slots, l, m); }
    SweepConnects(d0.slots, bound);
    SweepKeeps(d0.slots);
    if d.activation.None? && d0.dirty {
      forall i | 0 <= i < |d.slots| ensures Dropped(e, s, d.slots[i].id) !in t {
        assert LiveIn(d0.slots, d.slots[i]);
      }
    }
  }

  lemma PopStack(em: Emitters, st: seq<Activation>, t: seq<Event>, d: SignalData)
    requires StackOk(em, st, t) && st != []
    requires var a := st[|st| - 1]; a.emitter in em && a.signal in em[a.emitter] && d.activation == a.next
    ensures var a := st[|st| - 1]; StackOk(SetData(em, a.emitter, a.signal, d), st[..|st| - 1], t)
  {
    var a, st' := st[|st| - 1], st[..|st| - 1];
    var em' := SetData(em, a.emitter, a.signal, d);
    forall i | 0 <= i < |st'| ensures FrameOk(em', st', t, i) && st'[i].next == TopOf(st'[..i], st'[i].emitter, st'[i].signal) {
      assert FrameOk(em, st, t, i);
      assert st'[..i] == st[..i];
      if st[i].emitter !in em { assert TopOf(st', st[i].emitter, st[i].signal) == TopOf(st, st[i].emitter, st[i].signal); }
    }
  }

  lemma PopDead(em: Emitters, st: seq<Activation>, t: seq<Event>)
    requires StackOk(em, st, t) && st != [] && st[|st| - 1].emitter !in em
    ensures var a, st' := st[|st| - 1], st[..|st| - 1];
            if a.next.Some? then
              && a.next.value < |st'|
              && StackOk(em, st'[a.next.value := st'[a.next.value].(invalidated := true)], t)
              && Evolved(em, st', t, em, st'[a.next.value := st'[a.next.value].(invalidated := true)], t)
            else StackOk(em, st', t) && Evolved(em, st', t, em, st', t)
  {
    var a, st' := st[|st| - 1], st[..|st| - 1];
    TopFrame(em, st, t);
    TopIs(st', a.emitter, a.signal);
    var st2 := if a.next.Some? then st'[a.next.value := st'[a.next.value].(invalidated := true)] else st';
    forall e, s ensures TopOf(st2, e, s) == TopOf(st', e, s) { SameTop(st', st2, e, s); }
    forall i | 0 <= i < |st2| ensures FrameOk(em, st2, t, i) && st2[i].next == TopOf(st2[..i], st2[i].emitter, st2[i].signal) {
      assert FrameOk(em, st, t, i);
      assert st'[..i] == st[..i];
      SameTop(st2[..i], st[..i], st[i].emitter, st[i].signal);
    }
    EvolvedFlags(em, st', st2, t);
  }

  lemma EvolvedFlags(em: Emitters, st: seq<Activation>, st': seq<Activation>, t: seq<Event>)
    requires SameFrames(st, st')
    ensures Evolved(em, st, t, em, st', t)
  {
    forall e, s | e in em && TopOf(st, e, s).Some? ensures Survives(em, t, em, t, e, s) {
      KeptSame(SlotsOf(em, e, s), t, t, e, s);
    }
  }

  // ---- what an emission calls ----

  /** What the code behind the slots does: each call of a slot takes the next body. */
  datatype Script = Done | Then(first: Action, rest: Script)
  datatype Bodies = NoBody | Body(first: Script, rest: Bodies)
  datatype Action =
    | NewEmitter(e: int) | NewListener(l: int)
    | Connect(e: int, s: int, l: int, m: int) | Disconnect(e: int, s: int, l: int, m: int)
    | Emit(e: int, s: int, bodies: Bodies)
    | DeleteEmitter(e: int) | DeleteListener(l: int)

  /** The state of everything between two steps. */
  datatype World = World(em: Emitters, li: Listeners, stack: seq<Activation>, nextId: nat, trace: seq<Event>)

  /** Whether an action is a legal use after which the tables still match. */
  predicate AllowedIn(w: World, a: Action) {
    match a
    case NewEmitter(e) => e !in w.em && EmitterGone(e) !in w.trace
    case NewListener(l) => l !in w.li && ListenerGone(l) !in w.trace
    case Connect(e, _, l, _) => e in w.em && l in w.li
    case Disconnect(e, s, l, m) => Acquainted(w, e, s, l) && DropMatches(SlotsOf(w.em, e, s), l, m)
    case Emit(e, _, _) => e in w.em
    case DeleteEmitter(e) => e in w.em
    case DeleteListener(l) => l in w.li && ForgetMatches(w.em, w.li, w.stack, l)
  }

  /** The listener has a table for an emitter that knows the signal; the source relies on it. */
  predicate Acquainted(w: World, e: int, s: int, l: int) {
    e in w.em && l in w.li && (s in w.em[e] ==> e in w.li[l])
  }

  ghost predicate ConnectStep(w: World, w': World, e: int, s: int, l: int, m: int)
    requires e in w.em && l in w.li
  {
    && e in w'.em && s in w'.em[e] && IsMore(w.em, w.nextId, e, s, l, m, w'.em[e][s])
    && w' == World(SetData(w.em, e, s, w'.em[e][s]), SetSignals(w.li, l, e, SignalsOf(w.li, l, e) + [Signal(s, m)]),
                   w.stack, w.nextId + 1, w.trace)
  }

  /** What a drop adds to the history. */
  function DropEvent(xs: seq<Slot>, e: int, s: int, l: int, m: int): seq<Event> {
    if FirstLive(xs, l, m) then [Dropped(e, s, xs[FirstMatch(xs, l, m)].id)] else []
  }

  ghost predicate DisconnectStep(w: World, w': World, e: int, s: int, l: int, m: int)
    requires Acquainted(w, e, s, l)
  {
    w' == if s !in w.em[e] then w
          else w.(em := SetData(w.em, e, s, Less(w.em[e][s], l, m)), li := SetSignals(w.li, l, e, RemoveSignal(w.li[l][e], s, m)),
                  trace := w.trace + DropEvent(w.em[e][s].slots, e, s, l, m))
  }

  ghost predicate EmitterGoes(w: World, w': World, e: int)
    requires e in w.em
  {
    && w'.em == w.em - {e} && w'.nextId == w.nextId && w'.trace == w.trace + [EmitterGone(e)]
    && Marked(w.stack, w'.stack, e, w.em[e].Keys)
    && w'.li.Keys == w.li.Keys && OtherRecords(w.li, w'.li, e) && forall l :: SignalsOf(w'.li, l, e) == []
  }

  ghost predicate ListenerGoes(w: World, w': World, l: int)
    requires l in w.li
  {
    && w'.li == w.li - {l} && w'.nextId == w.nextId && w'.stack == w.stack
    && NoCalls(w.trace, w'.trace) && ListenerGone(l) in w'.trace
    && (forall e :: e in w.li[l] ==> LeftOver(w.em, w'.em, w.stack, l, e, w.li[l][e]))
    && (forall e, s :: e !in w.li[l] ==> SlotsOf(w'.em, e, s) == SlotsOf(w.em, e, s))
    && OthersLive(w.em, w'.em, l)
  }

  function Activated(w: World, e: int, s: int): World
    requires e in w.em && s in w.em[e]
  {
    var d := w.em[e][s];
    w.(em := SetData(w.em, e, s, d.(activation := Some(|w.stack|))), stack := w.stack + [Activation(e, s, d.activation, false)])
  }

  predicate Invalidated(w: World) {
    w.stack != [] && w.stack[|w.stack| - 1].invalidated
  }

  function Deactivated(w: World): World {
    if w.stack == [] then w
    else
      var a, st := w.stack[|w.stack| - 1], w.stack[..|w.stack| - 1];
      if a.invalidated then
        w.(stack := if a.next.Some? && a.next.value < |st| then st[a.next.value := st[a.next.value].(invalidated := true)] else st)
      else if a.emitter in w.em && a.signal in w.em[a.emitter] then
        var d := w.em[a.emitter][a.signal].(activation := a.next);
        w.(stack := st, em := SetData(w.em, a.emitter, a.signal,
                                      if a.next.None? && d.dirty then d.(slots := Sweep(d.slots), dirty := false) else d))
      else w.(stack := st)
  }

  /**
   An emission from place `i` of the list on, from world `w` to world `z`: an entry that is connected
   when the emission reaches it is called and runs the next body; nothing else happens.
   */
  ghost predicate Walks(bodies: Bodies, e: int, s: int, i: nat, w: World, z: World)
    decreases bodies, 2, |SlotsOf(w.em, e, s)| - i
  {
    var xs := SlotsOf(w.em, e, s);
    if i >= |xs| then z == w
    else if !xs[i].state.Connected? then Walks(bodies, e, s, i + 1, w, z)
    else
      var w1 := w.(trace := w.trace + [Called(e, s, xs[i].id, xs[i].receiver, |w.stack|)]);
      match bodies
      case NoBody => Walks(bodies, e, s, i + 1, w1, z)
      case Body(first, rest) =>
        exists u :: Runs(first, w1, u) && if Invalidated(u) then z == u else Walks(rest, e, s, i + 1, u, z)
  }

  /** The actions of a script one after the other; those that are not allowed are left out. */
  ghost predicate Runs(script: Script, w: World, z: World)
    decreases script, 2, 0
  {
    match script
    case Done => z == w
    case Then(a, rest) => exists u :: (if AllowedIn(w, a) then Does(a, w, u) else u == w) && Runs(rest, u, z)
  }

  ghost predicate Does(a: Action, w: World, z: World)
    requires AllowedIn(w, a)
    decreases a, 2, 0
  {
    match a
    case NewEmitter(e) => z == w.(em := w.em[e := map[]])
    case NewListener(l) => z == w.(li := w.li[l := map[]])
    case Connect(e, s, l, m) => ConnectStep(w, z, e, s, l, m)
    case Disconnect(e, s, l, m) => DisconnectStep(w, z, e, s, l, m)
    case DeleteEmitter(e) => EmitterGoes(w, z, e)
    case DeleteListener(l) => ListenerGoes(w, z, l)
    case Emit(e, s, bodies) =>
      if s !in w.em[e] then z == w
      else exists u :: Walks(bodies, e, s, 0, Activated(w, e, s), u) && z == Deactivated(u)
  }

  /** The call at `p` in the history is a call of entry `k`, which was connected at the start. */
  ghost predicate CallOf(xs: seq<Slot>, t0: seq<Event>, t: seq<Event>, e: int, s: int, d: nat, k: nat, p: nat, i: nat) {
    k < i && k < |xs| && xs[k].state.Connected? && |t0| <= p < |t| && t[p] == Called(e, s, xs[k].id, xs[k].receiver, d)
  }

  /** Entry `k` was dropped, or the emitter destroyed, before any later entry was called. */
  ghost predicate Excused(xs: seq<Slot>, t0: seq<Event>, t: seq<Event>, e: int, s: int, called: seq<nat>, at: seq<nat>, k: nat)
    requires k < |xs| && |called| == |at|
  {
    exists p :: |t0| <= p < |t| && (t[p] == Dropped(e, s, xs[k].id) || t[p] == EmitterGone(e))
                && forall j :: 0 <= j < |called| && called[j] > k ==> p < at[j]
  }

  /** An emission that started with list `xs` has dealt with the entries before `i`. */
  ghost predicate Progress(xs: seq<Slot>, t0: seq<Event>, t: seq<Event>, e: int, s: int, d: nat, called: seq<nat>, at: seq<nat>, i: nat) {
    && |called| == |at| && t0 <= t
    && (forall j :: 0 <= j < |called| ==> CallOf(xs, t0, t, e, s, d, called[j], at[j], i))
    && (forall j, k :: 0 <= j < k < |called| ==> called[j] < called[k] && at[j] < at[k])
    && (forall k :: 0 <= k < i && k < |xs| && xs[k].state.Connected? ==> k in called || Excused(xs, t0, t, e, s, called, at, k))
    && OnlyAt(t0, t, d, at)
  }

  /** Every call since `t0` was made with `d` activations on the stack at one of the places, or with more of them. */
  ghost predicate OnlyAt(t0: seq<Event>, t: seq<Event>, d: nat, at: seq<nat>) {
    forall p :: |t0| <= p < |t| && t[p].Called? ==> t[p].depth > d || (t[p].depth == d && p in at)
  }

  /** Every call since `t0` was made with more than `d` activations on the stack. */
  ghost predicate Deeper(t0: seq<Event>, t: seq<Event>, d: nat) {
    forall p :: |t0| <= p < |t| && t[p].Called? ==> t[p].depth > d
  }

  /** Nothing was called since `t0`. */
  ghost predicate NoCalls(t0: seq<Event>, t: seq<Event>) {
    t0 <= t && forall p :: |t0| <= p < |t| ==> !t[p].Called?
  }

  lemma DeeperLater(t0: seq<Event>, t1: seq<Event>, t: seq<Event>, d: nat)
    requires Deeper(t0, t1, d) && Deeper(t1, t, d) && t0 <= t1 <= t
    ensures Deeper(t0, t, d)
  {
    forall p | |t0| <= p < |t| && t[p].Called? ensures t[p].depth > d {
      if p < |t1| { assert t1[p] == t[p]; }
    }
  }

  /**
   What an emission does: it calls entries that were connected when it started, in the order of
   connection, each at most once, and it leaves one out only if, before it got any further, the
   entry was dropped or the emitter destroyed. It makes no other calls: those of the code that its
   calls run are deeper.
   */
  ghost predicate Delivered(xs: seq<Slot>, t0: seq<Event>, t: seq<Event>, e: int, s: int, d: nat, called: seq<nat>, at: seq<nat>) {
    Progress(xs, t0, t, e, s, d, called, at, |xs|)
  }

  /** An emission that is over: its list when it began, and the stretch of the history that it took. */
  datatype Emission = Emission(emitter: int, signal: int, slots: seq<Slot>, bound: nat, from: nat, to: nat, depth: nat, called: seq<nat>, at: seq<nat>)

  /**
   It delivered, and it and all emissions of the signal nested in it called only entries that were
   connected when it began, hence none that was added since.
   */
  ghost predicate EmissionOk(m: Emission, t: seq<Event>) {
    && m.from <= m.to <= |t|
    && Delivered(m.slots, t[..m.from], t[..m.to], m.emitter, m.signal, m.depth, m.called, m.at)
    && CalledOnly(m.slots, t[..m.from], t[..m.to], m.emitter, m.signal)
    && CalledBelow(m.bound, t[..m.from], t[..m.to], m.emitter, m.signal)
  }

  /** Every call of the signal since `t` was of an entry made before the entry numbered `bound`. */
  ghost predicate CalledBelow(bound: nat, t: seq<Event>, t': seq<Event>, e: int, s: int) {
    forall p :: |t| <= p < |t'| && t'[p].Called? && t'[p].emitter == e && t'[p].signal == s ==> t'[p].id < bound
  }

  ghost predicate AllDelivered(ms: seq<Emission>, t: seq<Event>) {
    forall i :: 0 <= i < |ms| ==> EmissionOk(ms[i], t)
  }

  lemma DeliveredLater(ms: seq<Emission>, t: seq<Event>, t': seq<Event>)
    requires AllDelivered(ms, t) && t <= t'
    ensures AllDelivered(ms, t')
  {
    hide Delivered, CalledOnly, CalledBelow;
    forall i | 0 <= i < |ms| ensures EmissionOk(ms[i], t') {
      assert EmissionOk(ms[i], t);
      assert t'[..ms[i].from] == t[..ms[i].from] && t'[..ms[i].to] == t[..ms[i].to];
    }
  }

  /** What is known at the end of an emission. */
  lemma Concluded(ms: seq<Emission>, m: Emission, t0: seq<Event>, t: seq<Event>)
    requires AllDelivered(ms, t) && t0 <= t && m.from == |t0| && m.to == |t| && Ordered(m.slots, m.bound) && m.depth > 0
    requires Delivered(m.slots, t0, t, m.emitter, m.signal, m.depth, m.called, m.at)
    requires CalledOnly(m.slots, t0, t, m.emitter, m.signal)
    ensures CalledBelow(m.bound, t0, t, m.emitter, m.signal) && Deeper(t0, t, m.depth - 1)
    ensures AllDelivered(ms + [m], t)
  {
    hide Delivered, CalledOnly, CalledBelow, Ordered, Deeper;
    CalledEarlier(m.slots, m.bound, t0, t, m.emitter, m.signal);
    DeliveredDeeper(m.slots, t0, t, m.emitter, m.signal, m.depth, m.called, m.at);
    assert t[..m.from] == t0 && t[..m.to] == t;
    forall i | 0 <= i < |ms + [m]| ensures EmissionOk((ms + [m])[i], t) {
      if i < |ms| { assert EmissionOk(ms[i], t); }
    }
  }

  lemma DeliveredDeeper(xs: seq<Slot>, t0: seq<Event>, t: seq<Event>, e: int, s: int, d: nat, called: seq<nat>, at: seq<nat>)
    requires Delivered(xs, t0, t, e, s, d, called, at) && d > 0
    ensures Deeper(t0, t, d - 1)
  {
  }

  lemma NothingToCall(t: seq<Event>, e: int, s: int, d: nat)
    ensures Delivered([], t, t, e, s, d, [], []) && CalledOnly([], t, t, e, s)
  {
    NothingYet([], t, e, s, d);
  }

  lemma NothingDeeper(t: seq<Event>, d: nat)
    ensures Deeper(t, t, d)
  {
  }

  lemma NothingCalled(t: seq<Event>)
    ensures NoCalls(t, t)
  {
  }

  lemma CallsDeeper(t0: seq<Event>, t: seq<Event>, d: nat)
    requires NoCalls(t0, t)
    ensures Deeper(t0, t, d)
  {
  }

  lemma CalledEarlier(xs: seq<Slot>, bound: nat, t0: seq<Event>, t: seq<Event>, e: int, s: int)
    requires CalledOnly(xs, t0, t, e, s) && Ordered(xs, bound)
    ensures CalledBelow(bound, t0, t, e, s)
  {
    forall p | |t0| <= p < |t| && t[p].Called? && t[p].emitter == e && t[p].signal == s ensures t[p].id < bound {
      assert ConnectedId(xs, t[p].id);
      var i :| 0 <= i < |xs| && xs[i].id == t[p].id;
    }
  }

  lemma NothingYet(xs: seq<Slot>, t0: seq<Event>, e: int, s: int, d: nat)
    ensures Progress(xs, t0, t0, e, s, d, [], [], 0)
  {
  }

  lemma ProgressLater(xs: seq<Slot>, t0: seq<Event>, t: seq<Event>, t': seq<Event>, e: int, s: int, d: nat, called: seq<nat>, at: seq<nat>, i: nat)
    requires Progress(xs, t0, t, e, s, d, called, at, i) && t <= t' && Deeper(t, t', d)
    ensures Progress(xs, t0, t', e, s, d, called, at, i)
  {
    forall p | |t0| <= p < |t'| && t'[p].Called? ensures t'[p].depth > d || (t'[p].depth == d && p in at) {
      if p < |t| { assert t[p] == t'[p]; }
    }
    forall j | 0 <= j < |called| ensures CallOf(xs, t0, t', e, s, d, called[j], at[j], i) {
      assert CallOf(xs, t0, t, e, s, d, called[j], at[j], i);
    }
    forall k | 0 <= k < i && k < |xs| && xs[k].state.Connected? && k !in called ensures Excused(xs, t0, t', e, s, called, at, k) {
      assert Excused(xs, t0, t, e, s, called, at, k);
      var p :| |t0| <= p < |t| && (t[p] == Dropped(e, s, xs[k].id) || t[p] == EmitterGone(e))
               && forall j :: 0 <= j < |called| && called[j] > k ==> p < at[j];
      assert t'[p] == t[p];
    }
  }

  lemma ProgressCall(xs: seq<Slot>, t0: seq<Event>, t: seq<Event>, e: int, s: int, d: nat, called: seq<nat>, at: seq<nat>, i: nat)
    requires Progress(xs, t0, t, e, s, d, called, at, i) && i < |xs| && xs[i].state.Connected?
    ensures Progress(xs, t0, t + [Called(e, s, xs[i].id, xs[i].receiver, d)], e, s, d, called + [i], at + [|t|], i + 1)
  {
    var t', called', at' := t + [Called(e, s, xs[i].id, xs[i].receiver, d)], called + [i], at + [|t|];
    forall j | 0 <= j < |called'| ensures CallOf(xs, t0, t', e, s, d, called'[j], at'[j], i + 1) {
      if j < |called| { assert CallOf(xs, t0, t, e, s, d, called[j], at[j], i); }
    }
    forall p | |t0| <= p < |t'| && t'[p].Called? ensures t'[p].depth > d || (t'[p].depth == d && p in at') {
      if p < |t| { assert t[p] == t'[p]; } else { assert at'[|at|] == p; }
    }
    forall j | 0 <= j < |called| ensures called[j] < i && at[j] < |t| { assert CallOf(xs, t0, t, e, s, d, called[j], at[j], i); }
    forall k | 0 <= k < i + 1 && k < |xs| && xs[k].state.Connected? && k !in called' ensures Excused(xs, t0, t', e, s, called', at', k) {
      assert called'[|called|] == i;
      assert k < i && k !in called && Excused(xs, t0, t, e, s, called, at, k);
      var p :| |t0| <= p < |t| && (t[p] == Dropped(e, s, xs[k].id) || t[p] == EmitterGone(e))
               && forall j :: 0 <= j < |called| && called[j] > k ==> p < at[j];
      assert t'[p] == t[p];
    }
  }

  lemma ProgressSkip(xs: seq<Slot>, t0: seq<Event>, t: seq<Event>, e: int, s: int, d: nat, called: seq<nat>, at: seq<nat>, i: nat)
    requires Progress(xs, t0, t, e, s, d, called, at, i)
    requires i < |xs| && xs[i].state.Connected? ==> Since(t0, t, Dropped(e, s, xs[i].id))
    ensures Progress(xs, t0, t, e, s, d, called, at, i + 1)
  {
    forall j | 0 <= j < |called| ensures CallOf(xs, t0, t, e, s, d, called[j], at[j], i + 1) && called[j] < i {
      assert CallOf(xs, t0, t, e, s, d, called[j], at[j], i);
    }
    if i < |xs| && xs[i].state.Connected? {
      var q :| 0 <= q < |t[|t0|..]| && t[|t0|..][q] == Dropped(e, s, xs[i].id);
      assert t[|t0| + q] == Dropped(e, s, xs[i].id);
      assert Excused(xs, t0, t, e, s, called, at, i);
    }
  }

  /** When the emitter is gone nothing is left to call. */
  lemma ProgressGone(xs: seq<Slot>, t0: seq<Event>, t: seq<Event>, e: int, s: int, d: nat, called: seq<nat>, at: seq<nat>, i: nat)
    requires Progress(xs, t0, t, e, s, d, called, at, i) && (i >= |xs| || Since(t0, t, EmitterGone(e)))
    ensures Delivered(xs, t0, t, e, s, d, called, at)
  {
    forall j | 0 <= j < |called| ensures CallOf(xs, t0, t, e, s, d, called[j], at[j], |xs|) && called[j] < i {
      assert CallOf(xs, t0, t, e, s, d, called[j], at[j], i);
    }
    if i < |xs| {
      var q :| 0 <= q < |t[|t0|..]| && t[|t0|..][q] == EmitterGone(e);
      assert t[|t0| + q] == EmitterGone(e);
      forall k | i <= k < |xs| ensures Excused(xs, t0, t, e, s, called, at, k) {}
    }
  }

  /** A connected entry may be called: it, its emitter and its receiver are still there. */
  lemma CallAllowed(em: Emitters, li: Listeners, st: seq<Activation>, t: seq<Event>, bound: nat, e: int, s: int, i: nat)
    requires StackOk(em, st, t) && HistoryOk(em, li, t, bound) && Mirrored(em, li)
    requires i < |SlotsOf(em, e, s)| && SlotsOf(em, e, s)[i].state.Connected?
    ensures var x := SlotsOf(em, e, s)[i]; var t' := t + [Called(e, s, x.id, x.receiver, |st|)];
            StackOk(em, st, t') && HistoryOk(em, li, t', bound) && Evolved(em, st, t, em, st, t') && x.receiver in li
  {
    var x := SlotsOf(em, e, s)[i];
    var ev := Called(e, s, x.id, x.receiver, |st|);
    LiveReceiver(em, li, e, s, i);
    assert NotDropped(em[e][s].slots, t, e, s);
    TraceAdd(t, ev);
    HistoryAdd(em, li, t, bound, ev);
    forall j | 0 <= j < |st| ensures FrameOk(em, st, t + [ev], j) { assert FrameOk(em, st, t, j); }
    forall e', s' | e' in em && TopOf(st, e', s').Some? ensures Survives(em, t, em, t + [ev], e', s') {
      KeptSame(SlotsOf(em, e', s'), t, t + [ev], e', s');
    }
  }

  /** The list of a signal under emission, since the emission began. */
  lemma KeptSoFar(em1: Emitters, st1: seq<Activation>, t0: seq<Event>, em: Emitters, st: seq<Activation>, t: seq<Event>, e: int, s: int)
    requires Evolved(em1, st1, t0, em, st, t) && e in em1 && TopOf(st1, e, s).Some?
    ensures if e in em then Kept(SlotsOf(em1, e, s), SlotsOf(em, e, s), t0, t, e, s) else Since(t0, t, EmitterGone(e))
  {
    assert Survives(em1, t0, em, t, e, s);
  }

  lemma CalledSoFar(em1: Emitters, st1: seq<Activation>, t0: seq<Event>, em: Emitters, st: seq<Activation>, t: seq<Event>, e: int, s: int)
    requires Evolved(em1, st1, t0, em, st, t) && e in em1 && TopOf(st1, e, s).Some?
    ensures CalledOnly(SlotsOf(em1, e, s), t0, t, e, s) && t0 <= t
  {
    assert Survives(em1, t0, em, t, e, s);
  }

  lemma Reached(xs: seq<Slot>, ys: seq<Slot>, t0: seq<Event>, t: seq<Event>, e: int, s: int, i: nat)
    requires Kept(xs, ys, t0, t, e, s) && i < |ys|
    ensures ys[i].state.Connected? ==> i < |xs| && xs[i].state.Connected? && xs[i].id == ys[i].id && xs[i].receiver == ys[i].receiver
    ensures !ys[i].state.Connected? && i < |xs| && xs[i].state.Connected? ==> Since(t0, t, Dropped(e, s, xs[i].id))
  {
    if i < |xs| { assert SameEntry(xs[i], ys[i], t0, t, e, s); }
  }

  lemma SameTopFrame(em0: Emitters, st0: seq<Activation>, t0: seq<Event>, em: Emitters, st: seq<Activation>, t: seq<Event>)
    requires Evolved(em0, st0, t0, em, st, t) && st0 != []
    ensures |st| == |st0| && st[|st| - 1].emitter == st0[|st0| - 1].emitter && st[|st| - 1].signal == st0[|st0| - 1].signal
  {
  }

  lemma TopHere(st: seq<Activation>, e: int, s: int)
    requires st != [] && st[|st| - 1].emitter == e && st[|st| - 1].signal == s
    ensures TopOf(st, e, s).Some?
  {
  }

  lemma StillTop(em0: Emitters, st0: seq<Activation>, t0: seq<Event>, em: Emitters, st: seq<Activation>, t: seq<Event>, e: int, s: int)
    requires Evolved(em0, st0, t0, em, st, t)
    ensures TopOf(st, e, s) == TopOf(st0, e, s)
  {
    SameTop(st0, st, e, s);
  }

  lemma Longer(em0: Emitters, em: Emitters, t0: seq<Event>, t: seq<Event>, e: int, s: int)
    requires e in em ==> Kept(SlotsOf(em0, e, s), SlotsOf(em, e, s), t0, t, e, s)
    ensures e in em ==> |SlotsOf(em0, e, s)| <= |SlotsOf(em, e, s)|
  {
  }

  /** An emission, from before its activation to after its deactivation. */
  lemma EmitEvolved(em0: Emitters, st0: seq<Activation>, em1: Emitters, st1: seq<Activation>, t0: seq<Event>,
                    em: Emitters, st: seq<Activation>, t: seq<Event>, em2: Emitters, st2: seq<Activation>)
    requires |st1| == |st0| + 1 && st1[..|st0|] == st0 && em1.Keys == em0.Keys
    requires forall e, s :: SlotsOf(em1, e, s) == SlotsOf(em0, e, s)
    requires Evolved(em1, st1, t0, em, st, t) && Evolved(em, st[..|st| - 1], t, em2, st2, t)
    requires (forall e :: e in em2 ==> EmitterGone(e) !in t) && TraceOk(t)
    ensures Evolved(em0, st0, t0, em2, st2, t)
  {
    EvolvedSame(em0, st0, t0, em1);
    var inner := st[..|st| - 1];
    forall e, s | e in em1 && TopOf(st0, e, s).Some? ensures Survives(em1, t0, em, t, e, s) {
      assert TopOf(st1, e, s).Some?;
    }
    assert Evolved(em1, st0, t0, em, inner, t);
    EvolvedLater(em1, st0, t0, em, inner, t, em2, st2, t);
    EvolvedLater(em0, st0, t0, em1, st0, t0, em2, st2, t);
  }

  // ---- what a script does ----

  ghost predicate TopAt(st: seq<Activation>, e: int, s: int) {
    st != [] && st[|st| - 1].emitter == e && st[|st| - 1].signal == s
  }

  lemma SameDepth(em0: Emitters, st0: seq<Activation>, t0: seq<Event>, em: Emitters, st: seq<Activation>, t: seq<Event>)
    requires Evolved(em0, st0, t0, em, st, t)
    ensures |st| == |st0| && t0 <= t
  {
  }

  /** The turn of an emission at place `i`: what the rest of the walk does, the whole walk from there does. */
  ghost predicate Advanced(bodies: Bodies, rest: Bodies, e: int, s: int, i: nat, w: World, w': World) {
    if Invalidated(w') then Walks(bodies, e, s, i, w, w')
    else forall z :: Walks(rest, e, s, i + 1, w', z) ==> Walks(bodies, e, s, i, w, z)
  }

  lemma AdvancedSkip(bodies: Bodies, e: int, s: int, i: nat, w: World)
    requires i < |SlotsOf(w.em, e, s)| && !SlotsOf(w.em, e, s)[i].state.Connected? && !Invalidated(w)
    ensures Advanced(bodies, bodies, e, s, i, w, w)
  {
  }

  lemma AdvancedBare(e: int, s: int, i: nat, w: World, w': World)
    requires i < |SlotsOf(w.em, e, s)| && SlotsOf(w.em, e, s)[i].state.Connected? && !Invalidated(w)
    requires var x := SlotsOf(w.em, e, s)[i]; w' == w.(trace := w.trace + [Called(e, s, x.id, x.receiver, |w.stack|)])
    ensures Advanced(NoBody, NoBody, e, s, i, w, w')
  {
  }

  lemma AdvancedBody(first: Script, more: Bodies, e: int, s: int, i: nat, w: World, w1: World, u: World)
    requires i < |SlotsOf(w.em, e, s)| && SlotsOf(w.em, e, s)[i].state.Connected?
    requires var x := SlotsOf(w.em, e, s)[i]; w1 == w.(trace := w.trace + [Called(e, s, x.id, x.receiver, |w.stack|)])
    requires Runs(first, w1, u)
    ensures Advanced(Body(first, more), more, e, s, i, w, u)
  {
    hide Runs;
    if Invalidated(u) {
      assert Walks(Body(first, more), e, s, i, w, u);
    } else {
      forall z | Walks(more, e, s, i + 1, u, z) ensures Walks(Body(first, more), e, s, i, w, z) {}
    }
  }

  /** What the rest of a walk does from here, the whole walk does from its start. */
  ghost predicate Leads(bodies: Bodies, rest: Bodies, e: int, s: int, i: nat, w0: World, w: World) {
    forall z :: Walks(rest, e, s, i, w, z) ==> Walks(bodies, e, s, 0, w0, z)
  }

  lemma LeadsStart(bodies: Bodies, e: int, s: int, w: World)
    ensures Leads(bodies, bodies, e, s, 0, w, w)
  {
    hide Walks;
  }

  lemma LeadsOn(bodies: Bodies, b: Bodies, rest: Bodies, e: int, s: int, i: nat, w0: World, w: World, w': World)
    requires Leads(bodies, b, e, s, i, w0, w) && Advanced(b, rest, e, s, i, w, w')
    ensures if Invalidated(w') then Walks(bodies, e, s, 0, w0, w') else Leads(bodies, rest, e, s, i + 1, w0, w')
  {
    hide Walks;
  }

  lemma LeadsEnd(bodies: Bodies, rest: Bodies, e: int, s: int, i: nat, w0: World, w: World)
    requires Leads(bodies, rest, e, s, i, w0, w) && i >= |SlotsOf(w.em, e, s)|
    ensures Walks(bodies, e, s, 0, w0, w)
  {
    assert Walks(rest, e, s, i, w, w);
  }

  lemma DoesNothing(w: World, e: int, s: int, bodies: Bodies)
    requires e in w.em && s !in w.em[e]
    ensures Does(Action.Emit(e, s, bodies), w, w)
  {
  }

  lemma DoesEmit(w: World, e: int, s: int, bodies: Bodies, u: World)
    requires e in w.em && s in w.em[e] && Walks(bodies, e, s, 0, Activated(w, e, s), u)
    ensures Does(Action.Emit(e, s, bodies), w, Deactivated(u))
  {
    hide Walks;
  }

  lemma RunsDone(w: World)
    ensures Runs(Done, w, w)
  {
  }

  lemma RunsThen(a: Action, rest: Script, w: World, u: World, z: World)
    requires (if AllowedIn(w, a) then Does(a, w, u) else u == w) && Runs(rest, u, z)
    ensures Runs(Then(a, rest), w, z)
  {
    hide Does;
  }

  class Hub {
    var signalData: Emitters
    var slotData: Listeners
    var stack: seq<Activation>
    var nextId: nat
    var trace: seq<Event>   // a history variable, which no decision in the source depends on
    ghost var emissions: seq<Emission>   // those that are over

    /** All but the match with the listeners' tables. */
    ghost predicate EmitterSide()
      reads this
    {
      && StackOk(signalData, stack, trace) && ListsOk(signalData, nextId)
      && HistoryOk(signalData, slotData, trace, nextId)
    }

    function Now(): World
      reads this
    {
      World(signalData, slotData, stack, nextId, trace)
    }

    ghost predicate Valid()
      reads this
    {
      EmitterSide() && Mirrored(signalData, slotData)
    }

    /** All emissions so far have delivered. */
    ghost predicate Recorded()
      reads this`emissions, this`trace
    {
      AllDelivered(emissions, trace)
    }

    lemma Alive()
      requires EmitterSide()
      ensures (forall e :: e in signalData ==> EmitterGone(e) !in trace) && TraceOk(trace)
    {
    }

    twostate predicate Evolves()
      reads this
    {
      Evolved(old(signalData), old(stack), old(trace), signalData, stack, trace)
    }

    constructor ()
      ensures Valid() && signalData == map[] && slotData == map[] && stack == [] && trace == [] && nextId == 0 && emissions == []
    {
      signalData, slotData, stack, nextId, trace := map[], map[], [], 0, [];
      emissions := [];
    }

    /** The emitter's half of a disconnection: the first entry for the receiver and the slot. */
    method DropSlot(e: int, s: int, l: int, m: int)
      requires EmitterSide() && e in signalData && s in signalData[e]
      modifies this`signalData, this`trace
      ensures EmitterSide() && Evolves() && NoCalls(old(trace), trace)
      ensures signalData == SetData(old(signalData), e, s, Less(old(signalData[e][s]), l, m))
      ensures trace == old(trace) + DropEvent(old(signalData[e][s].slots), e, s, l, m)
    {
      hide StackOk, ListsOk, HistoryOk, DataOk, Evolved, NotDropped, TraceOk, Live;
      var d := signalData[e][s];
      var d0 := d;
      var i := 0;
      while i < |d.slots|
        invariant i <= |d.slots| && forall j :: 0 <= j < i ==> !Matches(d.slots[j], l, m)
        invariant d == d0
      {
        if Matches(d.slots[i], l, m) {
          if d.activation.Some? {
            d := d.(slots := d.slots[i := d.slots[i].(state := Disconnected)], dirty := true);
          } else {
            d := d.(slots := d.slots[..i] + d.slots[i + 1..]);
          }
          break;
        }
        i := i + 1;
      }
      assert i == FirstMatch(d0.slots, l, m);
      var ev := if i < |d0.slots| && !d0.slots[i].state.Disconnected? then [Dropped(e, s, d0.slots[i].id)] else [];
      assert ev == DropEvent(d0.slots, e, s, l, m);
      DroppedOne(signalData, slotData, stack, trace, nextId, e, s, l, m, ev);
      signalData := SetData(signalData, e, s, d);
      trace := trace + ev;
    }

    // ---- connecting ----

    method Connect(e: int, s: int, l: int, m: int)
      requires Valid() && e in signalData && l in slotData
      modifies this`signalData, this`slotData, this`nextId
      ensures Valid() && Evolves()
      ensures ConnectStep(old(Now()), Now(), e, s, l, m)
      ensures nextId == old(nextId) + 1
      ensures SlotsOf(signalData, e, s) == SlotsOf(old(signalData), e, s)
                + [Slot(old(nextId), l, m, if TopOf(stack, e, s).Some? then Connecting else Connected)]
      ensures SignalsOf(slotData, l, e) == SignalsOf(old(slotData), l, e) + [Signal(s, m)]
      ensures forall e', s' :: e' != e || s' != s ==> SlotsOf(signalData, e', s') == SlotsOf(old(signalData), e', s')
      ensures forall e', l' :: e' != e || l' != l ==> SignalsOf(slotData, l', e') == SignalsOf(old(slotData), l', e')
    {
      hide StackOk, ListsOk, HistoryOk, Mirrored, Evolved, Live, Count, SlotsOf, SignalsOf;
      ghost var em, li := signalData, slotData;
      var d := if s in signalData[e] then signalData[e][s] else SignalData(None, [], false);
      ghost var d0 := d;
      var state := Connected;
      if d.activation.Some? {
        state := Connecting;
        d := d.(dirty := true);
      }
      d := d.(slots := d.slots + [Slot(nextId, l, m, state)]);
      signalData := SetData(signalData, e, s, d);
      var signals := if e in slotData[l] then slotData[l][e] else [];
      slotData := SetSignals(slotData, l, e, signals + [Signal(s, m)]);
      nextId := nextId + 1;
      SetSlotsOf(em, e, s, d);
      SetSignalsOf(li, l, e, signals + [Signal(s, m)]);
      ConnectedOne(em, li, stack, trace, nextId - 1, e, s, l, m, d);
    }

    // ---- disconnecting ----

    /** The listener's half of a disconnection: the first record of the signal and the slot. */
    method TakeSignal(l: int, e: int, s: int, m: int)
      requires l in slotData && e in slotData[l]
      modifies this`slotData
      ensures slotData == SetSignals(old(slotData), l, e, RemoveSignal(old(slotData[l][e]), s, m))
    {
      var signals := slotData[l][e];
      ghost var signals0 := signals;
      var i := 0;
      while i < |signals|
        invariant i <= |signals| && signals == signals0 && forall j :: 0 <= j < i ==> signals[j] != Signal(s, m)
      {
        if signals[i].signal == s && signals[i].slot == m {
          signals := signals[..i] + signals[i + 1..];
          break;
        }
        i := i + 1;
      }
      assert i == FirstSignal(signals0, s, m);
      slotData := SetSignals(slotData, l, e, signals);
    }

    /** The tables go on matching if and only if the drop hits a live entry or there is none. */
    method Disconnect(e: int, s: int, l: int, m: int)
      requires Valid() && Acquainted(Now(), e, s, l)
      modifies this`signalData, this`slotData, this`trace
      ensures EmitterSide() && Evolves() && NoCalls(old(trace), trace)
      ensures Valid() <==> DropMatches(SlotsOf(old(signalData), e, s), l, m)
      ensures DisconnectStep(old(Now()), Now(), e, s, l, m)
      ensures SlotsOf(signalData, e, s) == DropFirst(SlotsOf(old(signalData), e, s), l, m, TopOf(stack, e, s).Some?)
      ensures SignalsOf(slotData, l, e) == RemoveSignal(SignalsOf(old(slotData), l, e), s, m)
      ensures forall e', s' :: e' != e || s' != s ==> SlotsOf(signalData, e', s') == SlotsOf(old(signalData), e', s')
      ensures forall e', l' :: e' != e || l' != l ==> SignalsOf(slotData, l', e') == SignalsOf(old(slotData), l', e')
    {
      hide StackOk, ListsOk, HistoryOk, Mirrored, Evolved, Count, DropFirst, RemoveSignal;
      ghost var em, li := signalData, slotData;
      if s !in signalData[e] {
        EvolvedSame(em, stack, trace, em);
        NoSignal(em, stack, trace, e, s, l, m);
        NoSignalRecord(em, li, e, s, l, m);
        return;
      }
      ActivationIsTop(em, stack, trace, e, s);
      LessMirrored(em, li, e, s, l, m);
      DropSlot(e, s, l, m);
      TakeSignal(l, e, s, m);
      HistoryListeners(signalData, li, slotData, trace, nextId);
    }

    // ---- the destructor of an emitter ----

    /** The record of an entry, if the entry is live; `g` is the table with the entry at the head of the list. */
    method ForgetSlot(x: Slot, e: int, s: int, ghost g: Emitters)
      requires e in g && s in g[e] && g[e][s].slots != [] && g[e][s].slots[0] == x && Mirrored(g, slotData)
      modifies this`slotData
      ensures slotData.Keys == old(slotData).Keys && OtherRecords(old(slotData), slotData, e)
      ensures Mirrored(SetData(g, e, s, g[e][s].(slots := g[e][s].slots[1..])), slotData)
    {
      hide Mirrored, Live, Count, RemoveSignal;
      if x.state != Disconnected {
        LiveReceiver(g, slotData, e, s, 0);
        ForgetMirrored(g, slotData, e, s);
        if e in slotData[x.receiver] {
          TakeSignal(x.receiver, e, s, x.slot);
        }
      } else {
        DeadMirrored(g, slotData, e, s);
      }
    }

    /** Takes the records of a signal's live entries out of the receivers' tables. */
    method ForgetSlots(e: int, s: int, ghost g: Emitters) returns (ghost g': Emitters)
      requires e in signalData && s in signalData[e] && Mirrored(g, slotData)
      requires e in g && s in g[e] && g[e][s] == signalData[e][s]
      modifies this`slotData
      ensures slotData.Keys == old(slotData).Keys && OtherRecords(old(slotData), slotData, e)
      ensures g' == SetData(g, e, s, g[e][s].(slots := [])) && Mirrored(g', slotData)
    {
      hide Mirrored, OtherRecords;
      var slots := signalData[e][s].slots;
      var i := 0;
      g' := g;
      SetSame(g, e, s);
      SameRecords(slotData, e);
      assert slots[0..] == slots;
      while i < |slots|
        invariant i <= |slots| && slotData.Keys == old(slotData).Keys && OtherRecords(old(slotData), slotData, e) && Mirrored(g', slotData)
        invariant g' == SetData(g, e, s, g[e][s].(slots := slots[i..]))
      {
        ghost var li, d := slotData, g'[e][s];
        assert slots[i..] == [slots[i]] + slots[i + 1..];
        ForgetSlot(slots[i], e, s, g');
        RecordsLater(old(slotData), li, slotData, e);
        SetTwice(g, e, s, d, d.(slots := slots[i + 1..]));
        g' := SetData(g', e, s, d.(slots := d.slots[1..]));
        i := i + 1;
      }
      assert slots[i..] == [];
    }

    method DeleteEmitter(e: int)
      requires Valid() && e in signalData
      modifies this`signalData, this`slotData, this`trace, this`stack
      ensures Valid() && Evolves() && NoCalls(old(trace), trace)
      ensures EmitterGoes(old(Now()), Now(), e)
    {
      hide StackOk, ListsOk, HistoryOk, Mirrored, Live, Count, SameFrames, Evolved, TopOf;
      var todo := signalData[e].Keys;
      ghost var g := signalData;
      SameFramesRefl(stack);
      while todo != {}
        invariant signalData == old(signalData) && trace == old(trace)
        invariant todo <= signalData[e].Keys
        invariant Mirrored(g, slotData) && slotData.Keys == old(slotData).Keys && OtherRecords(old(slotData), slotData, e)
        invariant e in g && g - {e} == signalData - {e} && g[e].Keys == signalData[e].Keys
        invariant forall s :: s in g[e] ==> g[e][s] == if s in todo then signalData[e][s] else signalData[e][s].(slots := [])
        invariant Marked(old(stack), stack, e, signalData[e].Keys - todo)
      {
        EmptyOrNot(todo);
        var s :| s in todo;
        ghost var done := signalData[e].Keys - todo;
        var d := signalData[e][s];
        MarkOne(signalData, old(stack), stack, trace, e, done, s);
        if d.activation.Some? {
          stack := stack[d.activation.value := stack[d.activation.value].(invalidated := true)];
        }
        g := ForgetSlots(e, s, g);
        todo := todo - {s};
        assert signalData[e].Keys - todo == done + {s};
      }
      EmptyEmitter(g, slotData, e);
      GoneEmitter(old(signalData), old(slotData), old(stack), stack, trace, nextId, e);
      signalData := signalData - {e};
      trace := trace + [EmitterGone(e)];
      HistoryListeners(signalData, old(slotData), slotData, trace, nextId);
    }

    // ---- the destructor of a listener ----

    /** Drops an entry for each of a listener's records out of an emitter's lists. */
    method ForgetSignals(l: int, e: int)
      requires EmitterSide() && l in slotData && e in slotData[l]
      requires forall s, m :: Live(SlotsOf(signalData, e, s), l, m) == Count(slotData[l][e], s, m)
      modifies this`signalData, this`trace
      ensures EmitterSide() && Evolves() && NoCalls(old(trace), trace)
      ensures LeftOver(old(signalData), signalData, stack, l, e, slotData[l][e]) && OthersLive(old(signalData), signalData, l)
      ensures forall e', s :: e' != e ==> SlotsOf(signalData, e', s) == SlotsOf(old(signalData), e', s)
    {
      hide StackOk, ListsOk, HistoryOk, Evolved, Live, Count, TopOf, Less, LeftOver, OthersLive;
      var signals := slotData[l][e];
      var i := 0;
      assert signals[..0] == [];
      LeftStart(signalData, stack, l, e);
      EvolvedSame(signalData, stack, trace, signalData);
      while i < |signals|
        invariant i <= |signals| && EmitterSide() && Evolves() && NoCalls(old(trace), trace)
        invariant LeftOver(old(signalData), signalData, stack, l, e, signals[..i]) && OthersLive(old(signalData), signalData, l)
        invariant forall e', s :: e' != e ==> SlotsOf(signalData, e', s) == SlotsOf(old(signalData), e', s)
        invariant old(e in signalData) ==> e in signalData && signalData[e].Keys == old(signalData)[e].Keys
      {
        var r := signals[i];
        RecordLeft(old(signalData), signals, l, e, i);
        if e in signalData && r.signal in signalData[e] {
          ghost var em, t := signalData, trace;
          LeftStep(old(signalData), signalData, stack, trace, nextId, l, e, signals[..i], r);
          DropSlot(e, r.signal, l, r.slot);
          Alive();
          EvolvedLater(old(signalData), stack, old(trace), em, stack, t, signalData, stack, trace);
        }
        assert signals[..i + 1] == signals[..i] + [r];
        i := i + 1;
      }
      assert signals[..i] == signals;
    }

    /** The tables go on matching if and only if every drop finds the one live entry of its pair. */
    method DeleteListener(l: int)
      requires Valid() && l in slotData
      modifies this`signalData, this`slotData, this`trace
      ensures EmitterSide() && Evolves() && NoCalls(old(trace), trace)
      ensures ListenerGoes(old(Now()), Now(), l)
      ensures Valid() <==> old(ForgetMatches(signalData, slotData, stack, l))
      ensures Valid() ==> forall e, s, m :: Live(SlotsOf(signalData, e, s), l, m) == 0
    {
      hide StackOk, ListsOk, HistoryOk, Mirrored, Evolved, Live, Count, TopOf, LeftOver, OthersLive, ForgetMatches;
      var todo := slotData[l].Keys;
      ghost var em0 := signalData;
      LeftStart(signalData, stack, l, 0);
      EvolvedSame(signalData, stack, trace, signalData);
      while todo != {}
        invariant EmitterSide() && Evolves() && NoCalls(old(trace), trace) && slotData == old(slotData) && todo <= slotData[l].Keys
        invariant forall e :: e in slotData[l].Keys - todo ==> LeftOver(em0, signalData, stack, l, e, slotData[l][e])
        invariant forall e, s :: e !in slotData[l].Keys - todo ==> SlotsOf(signalData, e, s) == SlotsOf(em0, e, s)
        invariant OthersLive(em0, signalData, l)
      {
        EmptyOrNot(todo);
        var e :| e in todo;
        ghost var em, t := signalData, trace;
        RecordsOf(em0, em, slotData, l, e);
        ForgetSignals(l, e);
        Alive();
        EvolvedLater(em0, stack, old(trace), em, stack, t, signalData, stack, trace);
        OthersLater(em0, em, signalData, l);
        LeftSame(em, em0, signalData, signalData, stack, l, e, slotData[l][e]);
        forall e' | e' in slotData[l].Keys - todo ensures LeftOver(em0, signalData, stack, l, e', slotData[l][e']) {
          LeftSame(em0, em0, em, signalData, stack, l, e', slotData[l][e']);
        }
        todo := todo - {e};
      }
      ForgottenMirrored(em0, signalData, slotData, stack, l);
      ghost var em, t := signalData, trace;
      GoneListener(signalData, slotData, stack, trace, nextId, l);
      slotData := slotData - {l};
      trace := trace + [ListenerGone(l)];
      Alive();
      EvolvedLater(em0, stack, old(trace), em, stack, t, signalData, stack, trace);
    }

    // ---- births ----

    method NewEmitter(e: int)
      requires Valid() && e !in signalData && EmitterGone(e) !in trace
      modifies this`signalData
      ensures Valid() && Evolves() && signalData == old(signalData)[e := map[]]
    {
      BornEmitter(signalData, slotData, stack, trace, nextId, e);
      signalData := signalData[e := map[]];
    }

    method NewListener(l: int)
      requires Valid() && l !in slotData && ListenerGone(l) !in trace
      modifies this`slotData
      ensures Valid() && Evolves() && slotData == old(slotData)[l := map[]]
    {
      BornListener(signalData, slotData, stack, trace, nextId, l);
      slotData := slotData[l := map[]];
    }

    // ---- activations ----

    /** The constructor of `SignalActivation`, for a signal that has a list. */
    method Activate(e: int, s: int)
      requires Valid() && e in signalData && s in signalData[e]
      modifies this`signalData, this`stack
      ensures Valid()
      ensures Now() == Activated(old(Now()), e, s)
      ensures stack == old(stack) + [Activation(e, s, old(signalData[e][s].activation), false)]
      ensures forall e', s' :: SlotsOf(signalData, e', s') == SlotsOf(old(signalData), e', s')
      ensures signalData.Keys == old(signalData).Keys && s in signalData[e]
    {
      hide StackOk, ListsOk, HistoryOk, Mirrored, Live, Count, TopOf;
      var d := signalData[e][s];
      PushStack(signalData, stack, trace, e, s);
      SameSlots(signalData, slotData, trace, nextId, e, s, d.(activation := Some(|stack|)));
      stack := stack + [Activation(e, s, d.activation, false)];
      signalData := SetData(signalData, e, s, d.(activation := Some(|stack| - 1)));
    }

    static lemma SweepNothing(xs: seq<Slot>)
      ensures Sweep(xs[..0]) == [] && xs[0..] == xs
    {
    }

    static lemma SweepNext(xs: seq<Slot>, k: nat)
      requires k < |xs|
      ensures Sweep(xs[..k + 1])
              == Sweep(xs[..k]) + if xs[k].state.Disconnected? then [] else [xs[k].(state := Connected)]
      ensures xs[k..] == [xs[k]] + xs[k + 1..]
    {
      assert xs[..k + 1][..k] == xs[..k];
    }

    /** Taking out or replacing the element between two parts. */
    static lemma Around(a: seq<Slot>, x: Slot, b: seq<Slot>)
      ensures var s := a + ([x] + b);
              s[|a|] == x && s[..|a|] + s[|a| + 1..] == a + b && forall y :: s[|a| := y] == a + [y] + b
    {
    }

    /** The loop that removes disconnected entries and connects the new ones. */
    method SweepSlots(slots0: seq<Slot>) returns (slots: seq<Slot>)
      ensures slots == Sweep(slots0)
    {
      hide Sweep;
      slots := slots0;
      var i := 0;
      ghost var k := 0;
      SweepNothing(slots0);
      while i < |slots|
        invariant k <= |slots0| && i == |Sweep(slots0[..k])| && slots == Sweep(slots0[..k]) + slots0[k..]
        decreases |slots| - i
      {
        SweepNext(slots0, k);
        Around(Sweep(slots0[..k]), slots[i], slots0[k + 1..]);
        match slots[i].state {
          case Disconnected =>
            slots := slots[..i] + slots[i + 1..];
          case Connecting =>
            slots := slots[i := slots[i].(state := Connected)];
            i := i + 1;
          case Connected =>
            i := i + 1;
        }
        k := k + 1;
      }
      assert slots0[..k] == slots0;
    }

    /** The destructor of `SignalActivation`. */
    method Deactivate()
      requires Valid() && stack != []
      modifies this`signalData, this`stack
      ensures Valid() && |stack| == |old(stack)| - 1
      ensures Now() == Deactivated(old(Now()))
      ensures Evolved(old(signalData), old(stack)[..|stack|], trace, signalData, stack, trace)
      ensures signalData.Keys == old(signalData).Keys
      ensures var a := old(stack)[|stack|];
              a.emitter in signalData && a.next.None? ==>
                a.signal in signalData[a.emitter] && !signalData[a.emitter][a.signal].dirty
                && a.signal in old(signalData)[a.emitter]
                && signalData[a.emitter][a.signal].slots
                   == if old(signalData)[a.emitter][a.signal].dirty then Sweep(old(signalData)[a.emitter][a.signal].slots)
                      else old(signalData)[a.emitter][a.signal].slots
    {
      hide StackOk, ListsOk, HistoryOk, Mirrored, Evolved, Live, Count, TopOf, Sweep;
      var a := stack[|stack| - 1];
      ghost var st := stack;
      TopFrame(signalData, stack, trace);
      stack := stack[..|stack| - 1];
      if !a.invalidated {
        var d := signalData[a.emitter][a.signal];
        d := d.(activation := a.next);
        if a.next.None? && d.dirty {
          var slots := SweepSlots(d.slots);
          d := d.(slots := slots, dirty := false);
        }
        PopAlive(signalData, slotData, st, trace, nextId, d);
        signalData := SetData(signalData, a.emitter, a.signal, d);
      } else {
        PopDead(signalData, st, trace);
        if a.next.Some? {
          stack := stack[a.next.value := stack[a.next.value].(invalidated := true)];
        }
      }
    }

    // ---- emitting ----

    /** Records a call of the slot that the emission has reached. */
    method RecordCall(e: int, s: int, i: nat)
      requires Valid() && i < |SlotsOf(signalData, e, s)| && SlotsOf(signalData, e, s)[i].state.Connected?
      modifies this`trace
      ensures Valid() && Evolves()
      ensures var x := SlotsOf(signalData, e, s)[i]; trace == old(trace) + [Called(e, s, x.id, x.receiver, |stack|)]
    {
      var x := signalData[e][s].slots[i];
      CallAllowed(signalData, slotData, stack, trace, nextId, e, s, i);
      trace := trace + [Called(e, s, x.id, x.receiver, |stack|)];
    }

    /** One turn of an emission: the entry it has reached is called if it is connected. */
    method Visit(e: int, s: int, i: nat, bodies: Bodies, ghost em1: Emitters, ghost st1: seq<Activation>, ghost t0: seq<Event>,
                 ghost s0: seq<Slot>, ghost called0: seq<nat>, ghost at0: seq<nat>)
      returns (rest: Bodies, ghost called: seq<nat>, ghost at: seq<nat>)
      requires Valid() && Recorded() && Evolved(em1, st1, t0, signalData, stack, trace)
      requires e in em1 && TopOf(st1, e, s).Some? && s0 == SlotsOf(em1, e, s)
      requires e in signalData && s in signalData[e] && i < |signalData[e][s].slots| && !Invalidated(Now())
      requires Progress(s0, t0, trace, e, s, |st1|, called0, at0, i)
      modifies this
      ensures Valid() && Recorded() && old(emissions) <= emissions && Evolved(em1, st1, t0, signalData, stack, trace)
      ensures rest == bodies || rest < bodies
      ensures e in signalData ==> i < |SlotsOf(signalData, e, s)|
      ensures i >= |s0| && e in signalData ==> |SlotsOf(signalData, e, s)| == |SlotsOf(old(signalData), e, s)|
      ensures Progress(s0, t0, trace, e, s, |st1|, called, at, i + 1)
      ensures Advanced(bodies, rest, e, s, i, old(Now()), Now())
      decreases bodies, 0
    {
      hide StackOk, ListsOk, HistoryOk, Mirrored, Evolved, Live, Count, TopOf, Kept, Progress, AllDelivered, Advanced, Deeper;
      rest, called, at := bodies, called0, at0;
      ghost var w := Now();
      SameDepth(em1, st1, t0, signalData, stack, trace);
      KeptSoFar(em1, st1, t0, signalData, stack, trace, e, s);
      var x := signalData[e][s].slots[i];
      Reached(s0, SlotsOf(signalData, e, s), t0, trace, e, s, i);
      if x.state == Connected {
        ProgressCall(s0, t0, trace, e, s, |st1|, called, at, i);
        called, at := called + [i], at + [|trace|];
        ghost var em, st, t := signalData, stack, trace;
        RecordCall(e, s, i);
        DeliveredLater(emissions, t, trace);
        Onward(em1, st1, t0, em, st, t);
        match rest {
          case NoBody =>
            AdvancedBare(e, s, i, w, Now());
          case Body(first, more) =>
            em, st, t := signalData, stack, trace;
            ghost var w1 := Now();
            StillTop(em1, st1, t0, em, st, t, e, s);
            Run(first);
            SameDepth(em, st, t, signalData, stack, trace);
            KeptSoFar(em, st, t, signalData, stack, trace, e, s);
            Longer(em, signalData, t, trace, e, s);
            Onward(em1, st1, t0, em, st, t);
            ProgressLater(s0, t0, t, trace, e, s, |st1|, called, at, i + 1);
            AdvancedBody(first, more, e, s, i, w, w1, Now());
            rest := more;
        }
      } else {
        ProgressSkip(s0, t0, trace, e, s, |st1|, called, at, i);
        AdvancedSkip(bodies, e, s, i, w);
      }
    }

    /** The loop of an emission, with its activation in place. */
    method Walk(e: int, s: int, bodies: Bodies) returns (ghost called: seq<nat>, ghost at: seq<nat>)
      requires Valid() && Recorded() && e in signalData && s in signalData[e] && TopAt(stack, e, s) && !Invalidated(Now())
      modifies this
      ensures Valid() && Recorded() && old(emissions) <= emissions && Evolves() && TopAt(stack, e, s)
      ensures CalledOnly(SlotsOf(old(signalData), e, s), old(trace), trace, e, s)
      ensures Delivered(SlotsOf(old(signalData), e, s), old(trace), trace, e, s, |old(stack)|, called, at)
      ensures Walks(bodies, e, s, 0, old(Now()), Now())
      decreases bodies, 1
    {
      hide StackOk, ListsOk, HistoryOk, Mirrored, Evolved, Live, Count, TopOf, Kept, Progress, Delivered;
      hide AllDelivered, CalledOnly, Advanced, Leads, Walks;
      ghost var w1, em1, st1, t0, s0 := Now(), signalData, stack, trace, SlotsOf(signalData, e, s);
      called, at := [], [];
      NothingYet(s0, t0, e, s, |st1|);
      TopHere(stack, e, s);
      EvolvedSame(signalData, stack, trace, signalData);
      LeadsStart(bodies, e, s, w1);
      var rest := bodies;
      var i := 0;
      while i < |signalData[e][s].slots|
        invariant Valid() && Recorded() && old(emissions) <= emissions && Evolved(em1, st1, t0, signalData, stack, trace)
        invariant e in signalData && s in signalData[e] && i <= |signalData[e][s].slots| && !Invalidated(Now())
        invariant rest == bodies || rest < bodies
        invariant Progress(s0, t0, trace, e, s, |st1|, called, at, i)
        invariant Leads(bodies, rest, e, s, i, w1, Now())
        decreases if i < |s0| then |s0| - i else 0, |signalData[e][s].slots| - i
      {
        ghost var w, b := Now(), rest;
        rest, called, at := Visit(e, s, i, rest, em1, st1, t0, s0, called, at);
        SameTopFrame(em1, st1, t0, signalData, stack, trace);
        TopFrame(signalData, stack, trace);
        LeadsOn(bodies, b, rest, e, s, i, w1, w, Now());
        i := i + 1;
        if stack[|stack| - 1].invalidated {
          break;
        }
      }
      SameTopFrame(em1, st1, t0, signalData, stack, trace);
      assert i >= |s0| || Since(t0, trace, EmitterGone(e)) by { KeptSoFar(em1, st1, t0, signalData, stack, trace, e, s); }
      ProgressGone(s0, t0, trace, e, s, |st1|, called, at, i);
      CalledSoFar(em1, st1, t0, signalData, stack, trace, e, s);
      if !Invalidated(Now()) { LeadsEnd(bodies, rest, e, s, i, w1, Now()); }
    }

    /**
     `emit`: calls the connected slots one after the other; `bodies` says what each call does. The
     results are the places in the list of the slots it called and the places of the calls in the
     history.
     */
    method Emit(e: int, s: int, bodies: Bodies) returns (ghost called: seq<nat>, ghost at: seq<nat>)
      requires Valid() && Recorded() && e in signalData
      modifies this
      ensures Valid() && Recorded() && Evolves()
      ensures old(emissions) < emissions
      ensures emissions[|emissions| - 1]
              == Emission(e, s, SlotsOf(old(signalData), e, s), old(nextId), |old(trace)|, |trace|, |old(stack)| + 1, called, at)
      ensures CalledOnly(SlotsOf(old(signalData), e, s), old(trace), trace, e, s)
      ensures CalledBelow(old(nextId), old(trace), trace, e, s)
      ensures Delivered(SlotsOf(old(signalData), e, s), old(trace), trace, e, s, |old(stack)| + 1, called, at)
      ensures Deeper(old(trace), trace, |old(stack)|)
      ensures TopOf(stack, e, s).None? && e in signalData && s in signalData[e] ==>
                !signalData[e][s].dirty && AllConnected(signalData[e][s].slots)
      ensures Does(Action.Emit(e, s, bodies), old(Now()), Now())
      decreases bodies, 2
    {
      hide StackOk, ListsOk, HistoryOk, Mirrored, Evolved, Live, Count, TopOf, Progress, Delivered, Does;
      hide AllDelivered, CalledOnly, CalledBelow, Ordered, Walks, Deeper, Deactivated;
      ghost var w0, s0 := Now(), SlotsOf(signalData, e, s);
      ListBound(e, s);
      if s !in signalData[e] {
        called, at := [], [];
        EvolvedSame(signalData, stack, trace, signalData);
        NothingToCall(trace, e, s, |stack| + 1);
        DoesNothing(w0, e, s, bodies);
      } else {
        Activate(e, s);
        ghost var w1 := Now();
        called, at := Walk(e, s, bodies);
        ghost var w2 := Now();
        Deactivate();
        Alive();
        EmitEvolved(w0.em, w0.stack, w1.em, w1.stack, w0.trace, w2.em, w2.stack, w2.trace, signalData, stack);
        DoesEmit(w0, e, s, bodies, w2);
      }
      ghost var m := Emission(e, s, s0, w0.nextId, |w0.trace|, |trace|, |w0.stack| + 1, called, at);
      Concluded(emissions, m, w0.trace, trace);
      emissions := emissions + [m];
      Quiet(e, s);
    }

    lemma ListBound(e: int, s: int)
      requires EmitterSide()
      ensures Ordered(SlotsOf(signalData, e, s), nextId)
    {
      if e in signalData && s in signalData[e] { assert DataOk(signalData[e][s], nextId); }
    }

    /** One step after another. */
    lemma Onward(em0: Emitters, st0: seq<Activation>, t0: seq<Event>, em: Emitters, st: seq<Activation>, t: seq<Event>)
      requires Evolved(em0, st0, t0, em, st, t) && Evolved(em, st, t, signalData, stack, trace) && EmitterSide()
      ensures Evolved(em0, st0, t0, signalData, stack, trace) && t <= trace
    {
      Alive();
      EvolvedLater(em0, st0, t0, em, st, t, signalData, stack, trace);
    }

    /** Outside every emission of a signal its list is clean. */
    lemma Quiet(e: int, s: int)
      requires EmitterSide()
      ensures TopOf(stack, e, s).None? && e in signalData && s in signalData[e] ==>
                !signalData[e][s].dirty && AllConnected(signalData[e][s].slots)
    {
      if e in signalData && s in signalData[e] { assert DataOk(signalData[e][s], nextId); }
    }

    /** Runs the code of one call of a slot, or of the whole program; actions that are not allowed are left out. */
    method Run(script: Script)
      requires Valid() && Recorded()
      modifies this
      ensures Valid() && Recorded() && old(emissions) <= emissions && Evolves() && Deeper(old(trace), trace, |stack|)
      ensures Runs(script, old(Now()), Now())
      decreases script, 1
    {
      hide StackOk, ListsOk, HistoryOk, Mirrored, Evolved, Delivered, AllDelivered, Runs, Does, Deeper;
      ghost var w0 := Now();
      EvolvedSame(signalData, stack, trace, signalData);
      NothingDeeper(trace, |stack|);
      match script {
        case Done =>
          RunsDone(w0);
        case Then(first, rest) =>
          if AllowedIn(World(signalData, slotData, stack, nextId, trace), first) {
            Perform(first);
          }
          ghost var w := Now();
          SameDepth(w0.em, w0.stack, w0.trace, w.em, w.stack, w.trace);
          Run(rest);
          SameDepth(w.em, w.stack, w.trace, signalData, stack, trace);
          Onward(w0.em, w0.stack, w0.trace, w.em, w.stack, w.trace);
          DeeperLater(w0.trace, w.trace, trace, |stack|);
          RunsThen(first, rest, w0, w, Now());
      }
    }

    method Perform(a: Action)
      requires Valid() && Recorded() && AllowedIn(Now(), a)
      modifies this
      ensures Valid() && Recorded() && old(emissions) <= emissions && Evolves() && Deeper(old(trace), trace, |stack|)
      ensures Does(a, old(Now()), Now())
      decreases a, 1
    {
      hide StackOk, ListsOk, HistoryOk, Mirrored, SameFrames, Survives, Delivered, TopOf, AllDelivered, CalledOnly, CalledBelow;
      hide ForgetMatches, ConnectStep, DisconnectStep, EmitterGoes, ListenerGoes, Walks, Deeper, NoCalls;
      ghost var w0 := Now();
      NothingCalled(trace);
      match a {
        case NewEmitter(e) => NewEmitter(e);
        case NewListener(l) => NewListener(l);
        case Connect(e, s, l, m) => Connect(e, s, l, m);
        case Disconnect(e, s, l, m) => Disconnect(e, s, l, m);
        case Emit(e, s, bodies) => ghost var called, at; called, at := Emit(e, s, bodies);
        case DeleteEmitter(e) => DeleteEmitter(e);
        case DeleteListener(l) => DeleteListener(l);
      }
      SameDepth(w0.em, w0.stack, w0.trace, signalData, stack, trace);
      if !a.Emit? {
        DeliveredLater(emissions, w0.trace, trace);
        CallsDeeper(w0.trace, trace, |stack|);
      }
    }
  }

  /**
   After every program, no emission is left, every list is clean, no call went astray, and every
   emission, however deeply nested, did what it should.
   */
  method RunProgram(script: Script) returns (hub: Hub)
    ensures fresh(hub) && hub.Valid() && hub.stack == [] && TraceOk(hub.trace) && AllDelivered(hub.emissions, hub.trace)
    ensures Runs(script, World(map[], map[], [], 0, []), hub.Now())
    ensures forall e, s :: e in hub.signalData && s in hub.signalData[e] ==>
              !hub.signalData[e][s].dirty && AllConnected(hub.signalData[e][s].slots)
  {
    hub := new Hub();
    hub.Run(script);
    forall e, s { hub.Quiet(e, s); }
  }

  lemma NoTop(e: int, s: int)
    ensures TopOf([], e, s) == None
  {
  }

  lemma TwoTwins()
    ensures var x, y := Slot(0, 3, 4, Connected), Slot(1, 3, 4, Connected);
            var x' := x.(state := Disconnected);
            && DropMatches([x, y], 3, 4) && DropFirst([x, y], 3, 4, true) == [x', y]
            && !DropMatches([x', y], 3, 4) && DropFirst([x', y], 3, 4, true) == [x', y] && Live([x', y], 3, 4) == 1
    ensures var r := Signal(2, 4); RemoveSignal([r, r], 2, 4) == [r] && RemoveSignal([r], 2, 4) == [] && Count([], 2, 4) == 0
  {
    var x, y := Slot(0, 3, 4, Connected), Slot(1, 3, 4, Connected);
    var x' := x.(state := Disconnected);
    assert FirstMatch([x, y], 3, 4) == 0 && FirstMatch([x', y], 3, 4) == 0;
    assert [x'] + [y] == [x', y];
    LiveConcat([x'], [y], 3, 4);
    LiveOne(x', 3, 4);
    LiveOne(y, 3, 4);
    assert FirstSignal([Signal(2, 4), Signal(2, 4)], 2, 4) == 0;
  }

  /**
   How the tables come apart: of two connections of the same pair, both dropped during an emission,
   the second drop hits the entry that the first one has marked. The second entry stays live
   without a record.
   */
  method TwinsBreakTheMatch() returns (hub: Hub)
    ensures fresh(hub) && hub.EmitterSide() && !Mirrored(hub.signalData, hub.slotData)
    ensures Live(SlotsOf(hub.signalData, 1, 2), 3, 4) == 1 && Count(SignalsOf(hub.slotData, 3, 1), 2, 4) == 0
  {
    hide StackOk, ListsOk, HistoryOk, Mirrored, Evolved, Live, Count, TopOf, DropFirst, RemoveSignal, FirstMatch, DropMatches;
    hub := new Hub();
    NoTop(1, 2);
    hub.NewEmitter(1);
    hub.NewListener(3);
    hub.Connect(1, 2, 3, 4);
    hub.Connect(1, 2, 3, 4);
    ghost var x, y, r := Slot(0, 3, 4, Connected), Slot(1, 3, 4, Connected), Signal(2, 4);
    assert SignalsOf(hub.slotData, 3, 1) == [r, r];
    assert SlotsOf(hub.signalData, 1, 2) == [x, y];
    hub.Activate(1, 2);
    TopHere(hub.stack, 1, 2);
    TwoTwins();
    hub.Disconnect(1, 2, 3, 4);
    assert SlotsOf(hub.signalData, 1, 2) == [x.(state := Disconnected), y] && SignalsOf(hub.slotData, 3, 1) == [r];
    hub.Disconnect(1, 2, 3, 4);
  }
}
