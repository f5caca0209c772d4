/**
 The lists behind signals and slots: an emitter keeps a list of slots per signal, a listener a
 list of signals per emitter. Live entries of the one are to match the entries of the other.
 */
module SlotLists {
  import opened Basics

  datatype State = Connected | Connecting | Disconnected

  /** A list item; `id` stands for its address and grows in the order of connection. */
  datatype Slot = Slot(id: int, receiver: int, slot: int, state: State)

  /** A listener's record of one connection. */
  datatype Signal = Signal(signal: int, slot: int)

  datatype SignalData = SignalData(activation: Option<nat>, slots: seq<Slot>, dirty: bool)

  predicate Matches(x: Slot, l: int, m: int) {
    x.receiver == l && x.slot == m
  }

  /** The number of entries for receiver `l` and slot `m` that are not disconnected. */
  function Live(xs: seq<Slot>, l: int, m: int): nat {
    if xs == [] then 0
    else Live(xs[..|xs| - 1], l, m) + (if Matches(xs[|xs| - 1], l, m) && !xs[|xs| - 1].state.Disconnected? then 1 else 0)
  }

  lemma {:induction false} LiveConcat(a: seq<Slot>, b: seq<Slot>, l: int, m: int)
    ensures Live(a + b, l, m) == Live(a, l, m) + Live(b, l, m)
  {
    if b == [] {
      assert a + b == a;
    } else {
      assert (a + b)[..|a + b| - 1] == a + b[..|b| - 1];
      LiveConcat(a, b[..|b| - 1], l, m);
    }
  }

  lemma LiveOne(x: Slot, l: int, m: int)
    ensures Live([x], l, m) == if Matches(x, l, m) && !x.state.Disconnected? then 1 else 0
  {
    assert [x][..0] == [];
  }

  /** The list around one of its entries. */
  lemma LiveAround(xs: seq<Slot>, i: nat, l: int, m: int)
    requires i < |xs|
    ensures Live(xs, l, m) == Live(xs[..i], l, m) + Live([xs[i]], l, m) + Live(xs[i + 1..], l, m)
  {
    assert xs == xs[..i] + ([xs[i]] + xs[i + 1..]);
    LiveConcat(xs[..i], [xs[i]] + xs[i + 1..], l, m);
    LiveConcat([xs[i]], xs[i + 1..], l, m);
  }

  lemma {:induction false} LiveSome(xs: seq<Slot>, l: int, m: int)
    ensures Live(xs, l, m) > 0 <==> exists i :: 0 <= i < |xs| && Matches(xs[i], l, m) && !xs[i].state.Disconnected?
  {
    if xs != [] {
      var n := |xs| - 1;
      LiveSome(xs[..n], l, m);
      if i :| 0 <= i < |xs| && Matches(xs[i], l, m) && !xs[i].state.Disconnected? && i < n {
        assert xs[..n][i] == xs[i];
      }
    }
  }

  /** The number of records of a signal and a slot. */
  function Count(ss: seq<Signal>, s: int, m: int): nat {
    if ss == [] then 0 else Count(ss[..|ss| - 1], s, m) + (if ss[|ss| - 1] == Signal(s, m) then 1 else 0)
  }

  lemma {:induction false} CountConcat(a: seq<Signal>, b: seq<Signal>, s: int, m: int)
    ensures Count(a + b, s, m) == Count(a, s, m) + Count(b, s, m)
  {
    if b == [] {
      assert a + b == a;
    } else {
      assert (a + b)[..|a + b| - 1] == a + b[..|b| - 1];
      CountConcat(a, b[..|b| - 1], s, m);
    }
  }

  lemma CountOne(x: Signal, s: int, m: int)
    ensures Count([x], s, m) == if x == Signal(s, m) then 1 else 0
  {
    assert [x][..0] == [];
  }

  lemma {:induction false} CountSome(ss: seq<Signal>, s: int, m: int)
    ensures Count(ss, s, m) > 0 <==> exists i :: 0 <= i < |ss| && ss[i] == Signal(s, m)
  {
    if ss != [] {
      var n := |ss| - 1;
      CountSome(ss[..n], s, m);
      if i :| 0 <= i < |ss| && ss[i] == Signal(s, m) && i < n {
        assert ss[..n][i] == ss[i];
      }
    }
  }

  // ---- first matches ----

  function FirstMatch(xs: seq<Slot>, l: int, m: int): (i: nat)
    ensures i <= |xs| && (i < |xs| ==> Matches(xs[i], l, m)) && forall j :: 0 <= j < i ==> !Matches(xs[j], l, m)
  {
    if xs == [] || Matches(xs[0], l, m) then 0 else 1 + FirstMatch(xs[1..], l, m)
  }

  function FirstSignal(ss: seq<Signal>, s: int, m: int): (i: nat)
    ensures i <= |ss| && (i < |ss| ==> ss[i] == Signal(s, m)) && forall j :: 0 <= j < i ==> ss[j] != Signal(s, m)
  {
    if ss == [] || ss[0] == Signal(s, m) then 0 else 1 + FirstSignal(ss[1..], s, m)
  }

  /** What a drop of the first match leaves: a mark under an emission, otherwise a shorter list. */
  function DropFirst(xs: seq<Slot>, l: int, m: int, active: bool): seq<Slot> {
    var i := FirstMatch(xs, l, m);
    if i == |xs| then xs
    else if active then xs[i := xs[i].(state := Disconnected)]
    else xs[..i] + xs[i + 1..]
  }

  function RemoveSignal(ss: seq<Signal>, s: int, m: int): seq<Signal> {
    var i := FirstSignal(ss, s, m);
    if i == |ss| then ss else ss[..i] + ss[i + 1..]
  }

  ghost predicate AllConnected(xs: seq<Slot>) {
    forall i :: 0 <= i < |xs| ==> xs[i].state.Connected?
  }

  /** The first match is a live entry. */
  predicate FirstLive(xs: seq<Slot>, l: int, m: int) {
    FirstMatch(xs, l, m) < |xs| && !xs[FirstMatch(xs, l, m)].state.Disconnected?
  }

  /** A drop hits a live entry of the pair if there is one. */
  predicate DropMatches(xs: seq<Slot>, l: int, m: int) {
    Live(xs, l, m) == 0 || FirstLive(xs, l, m)
  }

  lemma ConnectedMatches(xs: seq<Slot>, l: int, m: int)
    requires AllConnected(xs)
    ensures DropMatches(xs, l, m) && (FirstLive(xs, l, m) <==> Live(xs, l, m) > 0)
  {
    LiveSome(xs, l, m);
  }

  /** Without twins, entries for the same receiver and slot, every drop hits the live entry. */
  lemma NoTwinsMatch(xs: seq<Slot>, l: int, m: int)
    requires forall i, j :: 0 <= i < j < |xs| ==> !(Matches(xs[i], l, m) && Matches(xs[j], l, m))
    ensures DropMatches(xs, l, m) && Live(xs, l, m) <= 1
  {
    LiveSome(xs, l, m);
    var i := FirstMatch(xs, l, m);
    if i < |xs| {
      LiveAround(xs, i, l, m);
      LiveOne(xs[i], l, m);
      LiveSome(xs[..i], l, m);
      LiveSome(xs[i + 1..], l, m);
      var zs := xs[i + 1..];
      forall j | 0 <= j < |zs| ensures !Matches(zs[j], l, m) { assert zs[j] == xs[i + 1 + j]; }
    }
  }

  /**
   A drop takes away one live entry for the pair exactly when the first match is live; every other
   pair keeps its entries.
   */
  lemma DropFirstLive(xs: seq<Slot>, l: int, m: int, active: bool, l': int, m': int)
    ensures var i := FirstMatch(xs, l, m);
            Live(DropFirst(xs, l, m, active), l', m')
            == Live(xs, l', m') - (if l' == l && m' == m && i < |xs| && !xs[i].state.Disconnected? then 1 else 0)
  {
    var i := FirstMatch(xs, l, m);
    if i < |xs| {
      var ys := DropFirst(xs, l, m, active);
      LiveAround(xs, i, l', m');
      LiveOne(xs[i], l', m');
      if active {
        LiveAround(ys, i, l', m');
        LiveOne(ys[i], l', m');
        assert ys[..i] == xs[..i] && ys[i + 1..] == xs[i + 1..];
      } else {
        LiveConcat(xs[..i], xs[i + 1..], l', m');
      }
    }
  }

  lemma RemoveSignalCount(ss: seq<Signal>, s: int, m: int, s': int, m': int)
    ensures Count(RemoveSignal(ss, s, m), s', m')
            == Count(ss, s', m') - (if s' == s && m' == m && Count(ss, s, m) > 0 then 1 else 0)
  {
    var i := FirstSignal(ss, s, m);
    CountSome(ss, s, m);
    if i < |ss| {
      assert ss == ss[..i] + ([ss[i]] + ss[i + 1..]);
      CountConcat(ss[..i], [ss[i]] + ss[i + 1..], s', m');
      CountConcat([ss[i]], ss[i + 1..], s', m');
      CountOne(ss[i], s', m');
      CountConcat(ss[..i], ss[i + 1..], s', m');
    }
  }

  /** What a mark does to the first matches: its own is dead, all others are as before. */
  lemma MarkedFirst(xs: seq<Slot>, l: int, m: int, l': int, m': int)
    ensures FirstLive(DropFirst(xs, l, m, true), l', m') <==> FirstLive(xs, l', m') && !(l' == l && m' == m)
  {
    var ys := DropFirst(xs, l, m, true);
    var i, k := FirstMatch(xs, l', m'), FirstMatch(ys, l', m');
    assert forall j :: 0 <= j < |xs| ==> (Matches(xs[j], l', m') <==> Matches(ys[j], l', m'));
    assert i == k;
  }

  // ---- the end of an emission ----

  /** What the end of the outermost emission makes of a list. */
  function Sweep(xs: seq<Slot>): seq<Slot> {
    if xs == [] then []
    else if xs[|xs| - 1].state.Disconnected? then Sweep(xs[..|xs| - 1])
    else Sweep(xs[..|xs| - 1]) + [xs[|xs| - 1].(state := Connected)]
  }

  lemma {:induction false} SweepLive(xs: seq<Slot>, l: int, m: int)
    ensures Live(Sweep(xs), l, m) == Live(xs, l, m)
  {
    if xs != [] {
      var n := |xs| - 1;
      SweepLive(xs[..n], l, m);
      if !xs[n].state.Disconnected? {
        LiveConcat(Sweep(xs[..n]), [xs[n].(state := Connected)], l, m);
        LiveOne(xs[n].(state := Connected), l, m);
      }
    }
  }

  ghost predicate Ordered(xs: seq<Slot>, bound: nat) {
    && (forall i, j :: 0 <= i < j < |xs| ==> xs[i].id < xs[j].id)
    && (forall i :: 0 <= i < |xs| ==> xs[i].id < bound)
  }

  /** The entry `y` is a live entry of the list. */
  ghost predicate LiveIn(xs: seq<Slot>, y: Slot) {
    exists j :: 0 <= j < |xs| && !xs[j].state.Disconnected? && xs[j].(state := Connected) == y
  }

  lemma {:induction false} SweepKeeps(xs: seq<Slot>)
    ensures forall i :: 0 <= i < |Sweep(xs)| ==> LiveIn(xs, Sweep(xs)[i])
  {
    if xs != [] {
      var n := |xs| - 1;
      SweepKeeps(xs[..n]);
      forall i | 0 <= i < |Sweep(xs)| ensures LiveIn(xs, Sweep(xs)[i]) {
        if i < |Sweep(xs[..n])| {
          assert LiveIn(xs[..n], Sweep(xs[..n])[i]);
          var j :| 0 <= j < n && !xs[..n][j].state.Disconnected? && xs[..n][j].(state := Connected) == Sweep(xs)[i];
          assert xs[j] == xs[..n][j];
        }
      }
    }
  }

  /** All entries left are connected and in the old order. */
  lemma {:induction false} SweepConnects(xs: seq<Slot>, bound: nat)
    requires Ordered(xs, bound)
    ensures AllConnected(Sweep(xs)) && Ordered(Sweep(xs), bound)
  {
    if xs != [] {
      var n, ys := |xs| - 1, Sweep(xs[..|xs| - 1]);
      SweepConnects(xs[..n], bound);
      SweepKeeps(xs[..n]);
      hide Sweep;
      forall i | 0 <= i < |ys| ensures ys[i].id < xs[n].id {
        LiveEarlier(xs, n, ys[i]);
      }
      SweepStep(xs);
    }
  }

  lemma LiveEarlier(xs: seq<Slot>, n: nat, y: Slot)
    requires n < |xs| && LiveIn(xs[..n], y) && forall i, j :: 0 <= i < j < |xs| ==> xs[i].id < xs[j].id
    ensures y.id < xs[n].id
  {
    var j :| 0 <= j < n && xs[..n][j].(state := Connected) == y;
    assert xs[j] == xs[..n][j];
  }

  lemma SweepStep(xs: seq<Slot>)
    requires xs != []
    ensures var n := |xs| - 1;
            Sweep(xs) == Sweep(xs[..n]) + if xs[n].state.Disconnected? then [] else [xs[n].(state := Connected)]
  {
  }
}
