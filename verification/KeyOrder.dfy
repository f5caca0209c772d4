/**
 Sequences of keyed values in key order: what the items of a `Map` or a `MultiMap` hold, read from
 the first to the last. `Put`, `PutAll` and `Del` say what the operations do to them; the lemmas
 relate them to finite maps.
 */
module KeyOrder {
  type Entries<V> = seq<(int, V)>

  ghost predicate Ascending<V>(e: Entries<V>) {
    forall i, j :: 0 <= i < j < |e| ==> e[i].0 < e[j].0
  }

  ghost predicate NonDecreasing<V>(e: Entries<V>) {
    forall i, j :: 0 <= i < j < |e| ==> e[i].0 <= e[j].0
  }

  /** Sets the value of a key, at the key's place. */
  function Put<V>(e: Entries<V>, key: int, value: V): Entries<V> {
    if e == [] then [(key, value)]
    else if key < e[0].0 then [(key, value)] + e
    else if key == e[0].0 then [(key, value)] + e[1..]
    else [e[0]] + Put(e[1..], key, value)
  }

  function PutAll<V>(e: Entries<V>, f: Entries<V>): Entries<V> {
    if f == [] then e else Put(PutAll(e, f[..|f| - 1]), f[|f| - 1].0, f[|f| - 1].1)
  }

  /** Removes the first entry of a key. */
  function Del<V>(e: Entries<V>, key: int): Entries<V> {
    if e == [] then [] else if e[0].0 == key then e[1..] else [e[0]] + Del(e[1..], key)
  }

  /** A new entry at index `i`, and an entry gone from index `i`. */
  function With<V>(e: Entries<V>, i: nat, key: int, value: V): Entries<V>
    requires i <= |e|
  {
    e[..i] + [(key, value)] + e[i..]
  }

  function Without<V>(e: Entries<V>, i: nat): Entries<V>
    requires i < |e|
  {
    e[..i] + e[i + 1..]
  }

  /** The key falls between index `lo` and index `hi`: nothing before `lo` or from `hi` on competes. */
  ghost predicate Between<V>(e: Entries<V>, lo: int, hi: int, key: int) {
    0 <= lo <= hi <= |e| && (lo > 0 ==> e[lo - 1].0 < key) && (hi < |e| ==> key < e[hi].0)
  }

  // ---- where `Put` and `Del` act ----

  lemma {:induction false} PutInserts<V>(e: Entries<V>, i: nat, key: int, value: V)
    requires Ascending(e) && Between(e, i, i, key)
    ensures Put(e, key, value) == With(e, i, key, value)
  {
    if i > 0 {
      hide With;
      PutInserts(e[1..], i - 1, key, value);
      WithTail(e, i, key, value);
      assert e[0].0 < key;
    } else {
      assert e == [] || key < e[0].0;
      assert With(e, 0, key, value) == [(key, value)] + e;
    }
  }

  lemma WithTail<V>(e: Entries<V>, i: nat, key: int, value: V)
    requires 0 < i <= |e|
    ensures With(e, i, key, value) == [e[0]] + With(e[1..], i - 1, key, value)
  {
    assert e[..i] == [e[0]] + e[1..][..i - 1] && e[i..] == e[1..][i - 1..];
  }

  lemma {:induction false} PutReplaces<V>(e: Entries<V>, i: nat, key: int, value: V)
    requires Ascending(e) && i < |e| && e[i].0 == key
    ensures Put(e, key, value) == e[i := (key, value)]
  {
    if i > 0 {
      PutReplaces(e[1..], i - 1, key, value);
      assert e[i := (key, value)] == [e[0]] + e[1..][i - 1 := (key, value)];
    }
  }

  lemma {:induction false} DelRemoves<V>(e: Entries<V>, i: nat, key: int)
    requires Ascending(e) && i < |e| && e[i].0 == key
    ensures Del(e, key) == Without(e, i)
  {
    if i > 0 {
      DelRemoves(e[1..], i - 1, key);
      assert Without(e, i) == [e[0]] + Without(e[1..], i - 1);
    }
  }

  lemma {:induction false} DelNothing<V>(e: Entries<V>, key: int)
    requires forall i :: 0 <= i < |e| ==> e[i].0 != key
    ensures Del(e, key) == e
  {
    if e != [] {
      DelNothing(e[1..], key);
      assert e == [e[0]] + e[1..];
    }
  }

  /** The two ways `Put` can act leave the keys ascending. */
  lemma WithAscending<V>(e: Entries<V>, i: nat, key: int, value: V)
    requires Ascending(e) && Between(e, i, i, key)
    ensures Ascending(With(e, i, key, value))
  {
    var r := With(e, i, key, value);
    assert forall j :: 0 <= j < i ==> e[j].0 < key;
    assert forall j :: i <= j < |e| ==> key < e[j].0;
    assert forall j :: 0 <= j < |r| ==> r[j] == if j < i then e[j] else if j == i then (key, value) else e[j - 1];
  }

  // ---- finite maps ----

  function ToMap<V>(e: Entries<V>): map<int, V> {
    if e == [] then map[] else ToMap(e[1..])[e[0].0 := e[0].1]
  }

  lemma {:induction false} MapKeys<V>(e: Entries<V>, key: int)
    requires Ascending(e)
    ensures key in ToMap(e) <==> exists i :: 0 <= i < |e| && e[i].0 == key
  {
    if e != [] {
      MapKeys(e[1..], key);
      if key in ToMap(e) && key != e[0].0 {
        var i :| 0 <= i < |e[1..]| && e[1..][i].0 == key;
        assert e[i + 1].0 == key;
      }
      if i :| 0 <= i < |e| && e[i].0 == key && i > 0 {
        assert e[1..][i - 1].0 == key;
      }
    }
  }

  lemma {:induction false} MapAt<V>(e: Entries<V>, i: nat)
    requires Ascending(e) && i < |e|
    ensures e[i].0 in ToMap(e) && ToMap(e)[e[i].0] == e[i].1
  {
    if i > 0 { MapAt(e[1..], i - 1); }
  }

  /** The keys of the rest of an ascending sequence are larger. */
  lemma HeadKey<V>(e: Entries<V>, key: int)
    requires Ascending(e) && e != [] && key <= e[0].0
    ensures key !in ToMap(e[1..])
  {
    MapKeys(e[1..], key);
  }

  lemma {:induction false} MapSize<V>(e: Entries<V>)
    requires Ascending(e)
    ensures |ToMap(e)| == |e|
  {
    if e != [] {
      MapSize(e[1..]);
      HeadKey(e, e[0].0);
      assert ToMap(e).Keys == ToMap(e[1..]).Keys + {e[0].0};
      assert |ToMap(e)| == |ToMap(e).Keys| && |ToMap(e[1..])| == |ToMap(e[1..]).Keys|;
    }
  }

  /** An ascending sequence is determined by its map. */
  lemma {:induction false} SameMap<V>(e: Entries<V>, f: Entries<V>)
    requires Ascending(e) && Ascending(f) && ToMap(e) == ToMap(f)
    ensures e == f
  {
    MapSize(e);
    MapSize(f);
    if e != [] {
      MapAt(e, 0);
      MapAt(f, 0);
      MapKeys(e, f[0].0);
      MapKeys(f, e[0].0);
      HeadKey(e, e[0].0);
      HeadKey(f, f[0].0);
      assert ToMap(e[1..]) == ToMap(e) - {e[0].0};
      assert ToMap(f[1..]) == ToMap(f) - {f[0].0};
      SameMap(e[1..], f[1..]);
      assert e == [e[0]] + e[1..] && f == [f[0]] + f[1..];
    }
  }

  /** The number of smaller keys. */
  function Rank<V>(e: Entries<V>, key: int): (i: nat)
    ensures i <= |e| && (i > 0 ==> e[i - 1].0 < key) && (i < |e| ==> key <= e[i].0)
  {
    if e == [] || key <= e[0].0 then 0 else 1 + Rank(e[1..], key)
  }

  lemma PutAscending<V>(e: Entries<V>, key: int, value: V)
    requires Ascending(e)
    ensures Ascending(Put(e, key, value))
  {
    var i := Rank(e, key);
    if i < |e| && e[i].0 == key {
      PutReplaces(e, i, key, value);
    } else {
      PutInserts(e, i, key, value);
      WithAscending(e, i, key, value);
    }
  }

  lemma {:induction false} PutMap<V>(e: Entries<V>, key: int, value: V)
    ensures ToMap(Put(e, key, value)) == ToMap(e)[key := value]
  {
    var p := Put(e, key, value);
    if e != [] && key <= e[0].0 {
      assert p[1..] == if key < e[0].0 then e else e[1..];
    } else if e != [] {
      PutMap(e[1..], key, value);
      assert p[1..] == Put(e[1..], key, value) && p[0] == e[0];
    }
  }

  lemma DelAscending<V>(e: Entries<V>, key: int)
    requires Ascending(e)
    ensures Ascending(Del(e, key))
  {
    if i :| 0 <= i < |e| && e[i].0 == key {
      DelRemoves(e, i, key);
    } else {
      DelNothing(e, key);
    }
  }

  lemma {:induction false} DelMap<V>(e: Entries<V>, key: int)
    requires Ascending(e)
    ensures ToMap(Del(e, key)) == ToMap(e) - {key}
  {
    if e != [] {
      HeadKey(e, e[0].0);
      if e[0].0 != key {
        DelMap(e[1..], key);
        var d := Del(e, key);
        assert d[1..] == Del(e[1..], key) && d[0] == e[0];
      }
    }
  }

  lemma PutLast<V>(f: Entries<V>)
    requires Ascending(f) && f != []
    ensures var n := |f| - 1; Ascending(f[..n]) && f == Put(f[..n], f[n].0, f[n].1)
  {
    var n := |f| - 1;
    PutInserts(f[..n], n, f[n].0, f[n].1);
    assert f == With(f[..n], n, f[n].0, f[n].1);
  }

  lemma {:induction false} PutAllMap<V>(e: Entries<V>, f: Entries<V>)
    requires Ascending(e) && Ascending(f)
    ensures Ascending(PutAll(e, f)) && ToMap(PutAll(e, f)) == ToMap(e) + ToMap(f)
  {
    hide Put, Ascending;
    if f != [] {
      var n := |f| - 1;
      var (k, v) := f[n];
      PutLast(f);
      PutAllMap(e, f[..n]);
      PutAscending(PutAll(e, f[..n]), k, v);
      PutMap(PutAll(e, f[..n]), k, v);
      PutMap(f[..n], k, v);
    }
  }

  // ---- every sequence of operations ----

  datatype Op<V> = Insert(key: int, value: V) | InsertAll(others: Entries<V>) | Remove(key: int) | Clear

  function Applied<V>(e: Entries<V>, op: Op<V>): Entries<V> {
    match op
    case Insert(k, v) => Put(e, k, v)
    case InsertAll(f) => PutAll(e, f)
    case Remove(k) => Del(e, k)
    case Clear => []
  }

  function MapAfter<V>(m: map<int, V>, op: Op<V>): map<int, V> {
    match op
    case Insert(k, v) => m[k := v]
    case InsertAll(f) => m + ToMap(f)
    case Remove(k) => m - {k}
    case Clear => map[]
  }

  function Run<V>(ops: seq<Op<V>>): Entries<V> {
    if ops == [] then [] else Applied(Run(ops[..|ops| - 1]), ops[|ops| - 1])
  }

  function MapRun<V>(ops: seq<Op<V>>): map<int, V> {
    if ops == [] then map[] else MapAfter(MapRun(ops[..|ops| - 1]), ops[|ops| - 1])
  }

  /** A merged map has ascending keys itself. */
  ghost predicate Merges<V>(ops: seq<Op<V>>) {
    forall i :: 0 <= i < |ops| ==> (ops[i].InsertAll? ==> Ascending(ops[i].others))
  }

  /** After every sequence of operations the contents are the finite map they make, in key order. */
  lemma {:induction false} EveryHistory<V>(ops: seq<Op<V>>)
    requires Merges(ops)
    ensures Ascending(Run(ops)) && ToMap(Run(ops)) == MapRun(ops) && |Run(ops)| == |MapRun(ops)|
  {
    if ops != [] {
      var n := |ops| - 1;
      EveryHistory(ops[..n]);
      match ops[n] {
        case Insert(k, v) =>
          PutAscending(Run(ops[..n]), k, v);
          PutMap(Run(ops[..n]), k, v);
        case InsertAll(f) => PutAllMap(Run(ops[..n]), f);
        case Remove(k) =>
          DelAscending(Run(ops[..n]), k);
          DelMap(Run(ops[..n]), k);
        case Clear =>
      }
    }
    MapSize(Run(ops));
  }

  // ---- keys that may repeat ----

  /** Where a plain insertion into a `MultiMap` goes: after every key that is not larger. */
  function UpperBound<V>(e: Entries<V>, key: int): (i: nat)
    ensures i <= |e| && (i < |e| ==> key < e[i].0) && forall j :: 0 <= j < i ==> e[j].0 <= key
  {
    if e == [] || key < e[0].0 then 0 else 1 + UpperBound(e[1..], key)
  }

  /** An index at which the key keeps a non-decreasing order. */
  ghost predicate Fits<V>(e: Entries<V>, i: nat, key: int) {
    i <= |e| && (i > 0 ==> e[i - 1].0 <= key) && (i < |e| ==> key <= e[i].0)
  }

  /** The key fits somewhere from `lo` to `hi`, which is `top` or has only larger keys behind it. */
  ghost predicate Near<V>(e: Entries<V>, lo: int, hi: int, key: int, top: int) {
    && 0 <= lo <= hi <= top <= |e| && (lo > 0 ==> e[lo - 1].0 <= key)
    && (hi < |e| ==> key <= e[hi].0) && (hi < top ==> key < e[hi].0)
  }

  /** After every key that is not larger, but not behind index `top`. */
  function PlaceUpTo<V>(e: Entries<V>, key: int, top: nat): nat {
    if UpperBound(e, key) < top then UpperBound(e, key) else top
  }

  /** Where there is no gap left the place is found. */
  lemma PlaceAt<V>(e: Entries<V>, i: nat, key: int, top: nat)
    requires NonDecreasing(e) && Near(e, i, i, key, top)
    ensures PlaceUpTo(e, key, top) == i && Fits(e, i, key)
  {
    if i < top { UpperBoundAt(e, i, key); }
  }

  /** The place is that of a plain insertion if and only if no key that is not larger stands at `top` or behind. */
  lemma PlaceIsUpper<V>(e: Entries<V>, key: int, top: nat)
    requires NonDecreasing(e) && top <= |e|
    ensures PlaceUpTo(e, key, top) == UpperBound(e, key) <==> forall j :: top <= j < |e| ==> key < e[j].0
  {
    var u := UpperBound(e, key);
    if u <= top {
      forall j | top <= j < |e| ensures key < e[j].0 { assert e[u].0 <= e[j].0; }
    } else {
      assert e[top].0 <= key;
    }
  }

  lemma WithNonDecreasing<V>(e: Entries<V>, i: nat, key: int, value: V)
    requires NonDecreasing(e) && Fits(e, i, key)
    ensures NonDecreasing(With(e, i, key, value))
  {
    var r := With(e, i, key, value);
    assert forall j :: 0 <= j < i ==> e[j].0 <= key;
    assert forall j :: i <= j < |e| ==> key <= e[j].0;
    assert forall j :: 0 <= j < |r| ==> r[j] == if j < i then e[j] else if j == i then (key, value) else e[j - 1];
  }

  lemma WithContents<V>(e: Entries<V>, i: nat, key: int, value: V)
    requires i <= |e|
    ensures multiset(With(e, i, key, value)) == multiset(e) + multiset{(key, value)}
  {
    assert e == e[..i] + e[i..];
  }

  lemma WithoutNonDecreasing<V>(e: Entries<V>, i: nat)
    requires NonDecreasing(e) && i < |e|
    ensures NonDecreasing(Without(e, i)) && multiset(Without(e, i)) == multiset(e) - multiset{e[i]}
  {
    assert e == e[..i] + [e[i]] + e[i + 1..];
  }

  lemma NothingBetween<V>(e: Entries<V>, k: nat, key: int)
    requires NonDecreasing(e) && Between(e, k, k, key)
    ensures forall i :: 0 <= i < |e| ==> e[i].0 != key
  {
    assert forall i :: 0 <= i < k ==> e[i].0 <= e[k - 1].0;
    assert forall i :: k < i < |e| ==> e[k].0 <= e[i].0;
  }

  /** Only one index has the key not before it and larger keys from it on. */
  lemma UpperBoundAt<V>(e: Entries<V>, i: nat, key: int)
    requires NonDecreasing(e) && i <= |e| && (i > 0 ==> e[i - 1].0 <= key) && (i < |e| ==> key < e[i].0)
    ensures UpperBound(e, key) == i
  {
  }

  /** A plain insertion keeps the order and goes after everything with the same key. */
  lemma PlainInsertion<V>(e: Entries<V>, key: int, value: V)
    requires NonDecreasing(e)
    ensures var i := UpperBound(e, key); var r := With(e, i, key, value);
            && NonDecreasing(r) && multiset(r) == multiset(e) + multiset{(key, value)}
            && (forall j :: 0 <= j < |r| && r[j].0 == key ==> j <= i)
            && (forall j :: 0 <= j < |e| && e[j].0 == key ==> j < i)
  {
    hide With, NonDecreasing;
    var i := UpperBound(e, key);
    WithNonDecreasing(e, i, key, value);
    WithContents(e, i, key, value);
    LargerAfter(e, i, key, value);
  }

  lemma LargerAfter<V>(e: Entries<V>, i: nat, key: int, value: V)
    requires NonDecreasing(e) && i <= |e| && (i < |e| ==> key < e[i].0)
    ensures forall j :: i <= j < |e| ==> key < e[j].0
    ensures |With(e, i, key, value)| == |e| + 1 && forall j :: i < j <= |e| ==> key < With(e, i, key, value)[j].0
  {
    assert forall j :: i < j < |e| ==> e[i].0 <= e[j].0;
    assert forall j :: i < j <= |e| ==> With(e, i, key, value)[j] == e[j - 1];
  }

  datatype MultiOp = InsertedAt(i: int, key: int) | RemovedAt(k: int)

  /** What one operation on a `MultiMap` may do. */
  ghost predicate MultiStep<V>(e: Entries<V>, r: Entries<V>, op: MultiOp, value: V) {
    match op
    case InsertedAt(i, key) => 0 <= i && Fits(e, i, key) && r == With(e, i, key, value)
    case RemovedAt(k) => 0 <= k < |e| && r == Without(e, k)
  }

  /** Keys stay non-decreasing, and nothing but the entry of the operation comes or goes. */
  lemma EveryMultiStep<V>(e: Entries<V>, r: Entries<V>, op: MultiOp, value: V)
    requires NonDecreasing(e) && MultiStep(e, r, op, value)
    ensures NonDecreasing(r)
    ensures op.InsertedAt? ==> multiset(r) == multiset(e) + multiset{(op.key, value)}
    ensures op.RemovedAt? ==> multiset(r) == multiset(e) - multiset{e[op.k]}
  {
    match op
    case InsertedAt(i, key) =>
      WithNonDecreasing(e, i, key, value);
      WithContents(e, i, key, value);
    case RemovedAt(k) =>
      WithoutNonDecreasing(e, k);
  }
}
