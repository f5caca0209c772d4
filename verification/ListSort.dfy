/** `List::sort`: a quicksort that walks the links and swaps values in place. */
module ListSort {
  import opened Basics

  // ---- sequences of values ----

  /** A total preorder, given by its strict part: what `operator<` of a value type promises. */
  ghost predicate Preorder<T(!new)>(less: (T, T) -> bool) {
    && (forall a, b :: less(a, b) ==> !less(b, a))
    && (forall a, b, c :: !less(a, b) && !less(b, c) ==> !less(a, c))
  }

  /** No value from `lo` to `hi` is smaller than one before it there. */
  ghost predicate Sorted<T>(less: (T, T) -> bool, v: seq<T>, lo: int, hi: int) {
    forall i, j :: 0 <= lo <= i < j <= hi < |v| ==> !less(v[j], v[i])
  }

  /** The values from `lo` to `hi` are rearranged, the others are as they were. */
  ghost predicate Rearranged<T>(v: seq<T>, w: seq<T>, lo: nat, hi: nat) {
    && |v| == |w| && lo <= hi < |v|
    && multiset(v[lo..hi + 1]) == multiset(w[lo..hi + 1])
    && v[..lo] == w[..lo] && v[hi + 1..] == w[hi + 1..]
  }

  function Swapped<T>(v: seq<T>, i: nat, j: nat): seq<T>
    requires i < |v| && j < |v|
  {
    v[i := v[j]][j := v[i]]
  }

  lemma SwapRearranges<T>(v: seq<T>, i: nat, j: nat, lo: nat, hi: nat)
    requires lo <= i <= j <= hi < |v|
    ensures Rearranged(v, Swapped(v, i, j), lo, hi)
  {
    var w := Swapped(v, i, j);
    var a, b := v[lo..hi + 1], w[lo..hi + 1];
    assert b == a[i - lo := a[j - lo]][j - lo := a[i - lo]];
    assert w[..lo] == v[..lo] && w[hi + 1..] == v[hi + 1..];
  }

  lemma RearrangedTwice<T>(u: seq<T>, v: seq<T>, w: seq<T>, lo: nat, hi: nat)
    requires Rearranged(u, v, lo, hi) && Rearranged(v, w, lo, hi)
    ensures Rearranged(u, w, lo, hi)
  {
  }

  /** Rearranging a part rearranges the whole. */
  lemma RearrangedPart<T>(v: seq<T>, w: seq<T>, a: nat, b: nat, lo: nat, hi: nat)
    requires Rearranged(v, w, a, b) && lo <= a && b <= hi < |v|
    ensures Rearranged(v, w, lo, hi)
  {
    assert v[lo..hi + 1] == v[..a][lo..] + v[a..b + 1] + v[b + 1..][..hi - b];
    assert w[lo..hi + 1] == w[..a][lo..] + w[a..b + 1] + w[b + 1..][..hi - b];
    assert v[..lo] == v[..a][..lo] && w[..lo] == w[..a][..lo];
    assert v[hi + 1..] == v[b + 1..][hi - b..] && w[hi + 1..] == w[b + 1..][hi - b..];
  }

  /** After a rearrangement each value of the part was in the part before. */
  lemma FromPart<T>(v: seq<T>, w: seq<T>, lo: nat, hi: nat, k: nat) returns (i: nat)
    requires Rearranged(v, w, lo, hi) && lo <= k <= hi
    ensures lo <= i <= hi && v[i] == w[k]
  {
    assert w[k] == w[lo..hi + 1][k - lo];
    assert w[k] in multiset(w[lo..hi + 1]);
    assert w[k] in v[lo..hi + 1];
    var j :| 0 <= j < |v[lo..hi + 1]| && v[lo..hi + 1][j] == w[k];
    i := lo + j;
  }

  lemma OutsidePart<T>(v: seq<T>, w: seq<T>, lo: nat, hi: nat, k: nat)
    requires Rearranged(v, w, lo, hi) && k < |v| && (k < lo || k > hi)
    ensures v[k] == w[k]
  {
    if k < lo { assert v[..lo][k] == w[..lo][k]; } else { assert v[hi + 1..][k - hi - 1] == w[hi + 1..][k - hi - 1]; }
  }

  /** The pivot at `m`: smaller values before it, no smaller values behind it. */
  ghost predicate Split<T>(less: (T, T) -> bool, v: seq<T>, lo: int, m: int, hi: int) {
    && 0 <= lo <= m <= hi < |v|
    && (forall k :: lo <= k < m ==> less(v[k], v[m]))
    && (forall k :: m < k <= hi ==> !less(v[k], v[m]))
  }

  /** Rearranging one side of a split keeps the split. */
  lemma SplitKept<T>(less: (T, T) -> bool, v: seq<T>, w: seq<T>, lo: nat, m: nat, hi: nat, a: nat, b: nat)
    requires Split(less, v, lo, m, hi) && Rearranged(v, w, a, b) && ((lo <= a && b < m) || (m < a && b <= hi))
    ensures Split(less, w, lo, m, hi)
  {
    OutsidePart(v, w, a, b, m);
    forall k | lo <= k <= hi && k != m ensures if k < m then less(w[k], w[m]) else !less(w[k], w[m]) {
      if a <= k <= b {
        var i := FromPart(v, w, a, b, k);
      } else {
        OutsidePart(v, w, a, b, k);
      }
    }
  }

  lemma SortedElsewhere<T>(less: (T, T) -> bool, v: seq<T>, w: seq<T>, lo: nat, hi: int, a: nat, b: nat)
    requires Sorted(less, v, lo, hi) && hi < |v| && Rearranged(v, w, a, b) && (hi < a || b < lo)
    ensures Sorted(less, w, lo, hi)
  {
    forall k | lo <= k <= hi ensures w[k] == v[k] { OutsidePart(v, w, a, b, k); }
  }

  /** Two sorted sides and the pivot between them are sorted. */
  lemma SortedWhole<T(!new)>(less: (T, T) -> bool, v: seq<T>, lo: nat, m: nat, hi: nat)
    requires Preorder(less) && Split(less, v, lo, m, hi) && Sorted(less, v, lo, m - 1) && Sorted(less, v, m + 1, hi)
    ensures Sorted(less, v, lo, hi)
  {
    forall i, j | lo <= i < j <= hi ensures !less(v[j], v[i]) {
      if i < m && j > m {
        assert !less(v[j], v[m]) && !less(v[m], v[i]);
      }
    }
  }

  // ---- the list ----

  class Item<T> {
    var value: T
    var next: Item?<T>
    var prev: Item?<T>

    constructor (value: T) {
      this.value := value;
      next, prev := null, null;
    }
  }

  /** The items hold the values `v`, and `next` leads from each to the one after it. */
  ghost predicate Holds<T>(s: seq<Item<T>>, v: seq<T>)
    reads Members(s)`value
  {
    |s| == |v| && forall i :: 0 <= i < |s| ==> s[i].value == v[i]
  }

  ghost predicate Linked<T>(s: seq<Item<T>>)
    reads Members(s)`next
  {
    forall i :: 0 <= i < |s| - 1 ==> s[i].next == NextOf(s, i)
  }

  ghost function NextOf<T>(s: seq<Item<T>>, i: int): Item<T>
    requires 0 <= i < |s| - 1
  {
    s[i + 1]
  }

  /** The values of the items. */
  ghost function Values<T>(s: seq<Item<T>>): (v: seq<T>)
    reads Members(s)`value
    ensures Holds(s, v)
  {
    if s == [] then [] else
      assert forall x :: x in s[..|s| - 1] ==> x in s;
      Values(s[..|s| - 1]) + [s[|s| - 1].value]
  }

  method Swap<T>(a: Item<T>, b: Item<T>, ghost s: seq<Item<T>>, ghost v: seq<T>, ghost i: nat, ghost j: nat)
    requires Distinct(s) && Holds(s, v) && i < |s| && j < |s| && s[i] == a && s[j] == b
    modifies a`value, b`value
    ensures Holds(s, Swapped(v, i, j))
  {
    var tmp := a.value;
    a.value := b.value;
    b.value := tmp;
  }

  /** What the loop of the partition has done up to `i2`: the pivot at `lo`, smaller values up to `i1`. */
  ghost predicate Partitioned<T>(less: (T, T) -> bool, v: seq<T>, lo: int, i1: int, i2: int) {
    && 0 <= lo <= i1 <= i2 < |v|
    && (forall k :: lo < k <= i1 ==> less(v[k], v[lo]))
    && (forall k :: i1 < k <= i2 ==> !less(v[k], v[lo]))
  }

  lemma OneMore<T>(less: (T, T) -> bool, v: seq<T>, lo: int, i1: int, i2: int)
    requires Partitioned(less, v, lo, i1, i2) && i2 + 1 < |v|
    ensures !less(v[i2 + 1], v[lo]) ==> Partitioned(less, v, lo, i1, i2 + 1)
    ensures less(v[i2 + 1], v[lo]) ==> Partitioned(less, Swapped(v, i1 + 1, i2 + 1), lo, i1 + 1, i2 + 1)
  {
  }

  /** The pivot goes between the two sides. */
  lemma PivotIn<T>(less: (T, T) -> bool, v: seq<T>, lo: int, i1: int, hi: int)
    requires Partitioned(less, v, lo, i1, hi)
    ensures Split(less, Swapped(v, lo, i1), lo, i1, hi)
  {
  }

  /** The loop over the links, and the pivot's move. */
  method Partition<T(!new)>(left: Item<T>, right: Item<T>, less: (T, T) -> bool,
                            ghost s: seq<Item<T>>, ghost v0: seq<T>, ghost lo: nat, ghost hi: nat)
    returns (ptr0: Item<T>, ptr1: Item<T>, ghost i0: nat, ghost i1: nat, ghost v: seq<T>)
    requires Distinct(s) && Linked(s) && Holds(s, v0) && lo < hi < |s| && left == s[lo] && right == s[hi]
    modifies Members(s)`value
    ensures Holds(s, v) && Rearranged(v0, v, lo, hi) && Split(less, v, lo, i1, hi)
    ensures lo <= i0 <= i1 <= hi && (i1 == lo ==> i0 == lo) && (i1 > lo ==> i0 == i1 - 1) && ptr1 == s[i1] && ptr0 == s[i0]
  {
    hide Holds, Rearranged, Partitioned, Distinct, Linked;
    ptr0, ptr1 := left, left;
    var ptr2 := left;
    i0, i1, v := lo, lo, v0;
    ghost var i2 := lo;
    FirstStep(less, s, v0, lo, hi);
    while true
      invariant lo <= i1 <= i2 < hi && Holds(s, v) && Rearranged(v0, v, lo, hi) && Partitioned(less, v, lo, i1, i2)
      invariant lo <= i0 <= i1 && (i1 == lo ==> i0 == lo) && (i1 > lo ==> i0 == i1 - 1)
      invariant ptr2 == s[i2] && ptr1 == s[i1] && ptr0 == s[i0]
      decreases hi - i2
    {
      Step(s, v, i2);
      Step(s, v, i1);
      Value(s, v, lo);
      ptr2 := ptr2.next;
      OneMore(less, v, lo, i1, i2);
      i2 := i2 + 1;
      Value(s, v, i2);
      if less(ptr2.value, left.value) {
        ptr0 := ptr1;
        ptr1 := ptr1.next;
        i0, i1 := i1, i1 + 1;
        Swap(ptr1, ptr2, s, v, i1, i2);
        SwapRearranges(v, i1, i2, lo, hi);
        RearrangedTwice(v0, v, Swapped(v, i1, i2), lo, hi);
        v := Swapped(v, i1, i2);
      }
      Same(s, i2, hi);
      if ptr2 == right {
        break;
      }
    }
    PivotIn(less, v, lo, i1, hi);
    Value(s, v, lo);
    Swap(left, ptr1, s, v, lo, i1);
    SwapRearranges(v, lo, i1, lo, hi);
    RearrangedTwice(v0, v, Swapped(v, lo, i1), lo, hi);
    v := Swapped(v, lo, i1);
  }

  lemma FirstStep<T>(less: (T, T) -> bool, s: seq<Item<T>>, v: seq<T>, lo: nat, hi: nat)
    requires Holds(s, v) && lo <= hi < |s|
    ensures Partitioned(less, v, lo, lo, lo) && Rearranged(v, v, lo, hi)
  {
  }

  lemma Step<T>(s: seq<Item<T>>, v: seq<T>, i: nat)
    requires Linked(s) && Holds(s, v) && i < |s| - 1
    ensures s[i].next == s[i + 1] && |v| == |s| && s[i] in Members(s) && s[i + 1] in Members(s)
  {
    assert s[i].next == NextOf(s, i);
  }

  lemma Value<T>(s: seq<Item<T>>, v: seq<T>, i: nat)
    requires Holds(s, v) && i < |s|
    ensures |v| == |s| && s[i].value == v[i] && s[i] in Members(s)
  {
  }

  lemma Same<T>(s: seq<Item<T>>, i: nat, j: nat)
    requires Distinct(s) && i < |s| && j < |s|
    ensures s[i] == s[j] <==> i == j
  {
  }

  /** `QuickSort::sort`: both sides of the partition in turn. */
  method SortBetween<T(!new)>(left: Item<T>, right: Item<T>, less: (T, T) -> bool,
                       ghost s: seq<Item<T>>, ghost v0: seq<T>, ghost lo: nat, ghost hi: nat)
    returns (ghost v: seq<T>)
    requires Preorder(less) && Distinct(s) && Linked(s) && Holds(s, v0)
    requires lo < hi < |s| && left == s[lo] && right == s[hi]
    modifies Members(s)`value
    ensures Holds(s, v) && Rearranged(v0, v, lo, hi) && Sorted(less, v, lo, hi)
    decreases hi - lo
  {
    hide Preorder, Holds, Rearranged, Split, Sorted, Distinct, Linked;
    var ptr0, ptr1;
    ghost var i0, i1, w;
    ptr0, ptr1, i0, i1, v := Partition(left, right, less, s, v0, lo, hi);
    ghost var m: int, first := i1, i1 + 1;
    Same(s, i1, hi);
    if ptr1 != right {
      Step(s, v, i1);
      ptr1 := ptr1.next;
      i1 := i1 + 1;
    }
    Same(s, lo, i0);
    Alone(less, v, lo, i0);
    if left != ptr0 {
      w := SortBetween(left, ptr0, less, s, v, lo, i0);
      SideSorted(less, v0, v, w, lo, m, hi, lo, i0);
      v := w;
    }
    Same(s, i1, hi);
    Alone(less, v, first, hi);
    if ptr1 != right {
      w := SortBetween(ptr1, right, less, s, v, i1, hi);
      SideSorted(less, v0, v, w, lo, m, hi, i1, hi);
      SortedElsewhere(less, v, w, lo, m - 1, i1, hi);
      v := w;
    }
    SortedWhole(less, v, lo, m, hi);
  }

  lemma Alone<T>(less: (T, T) -> bool, v: seq<T>, lo: int, hi: int)
    ensures lo >= hi ==> Sorted(less, v, lo, hi)
    ensures Sorted(less, v, lo, lo - 1)
  {
  }

  /** Sorting one side keeps the split and rearranges the whole. */
  lemma SideSorted<T>(less: (T, T) -> bool, v0: seq<T>, v: seq<T>, w: seq<T>, lo: nat, m: nat, hi: nat, a: nat, b: nat)
    requires Rearranged(v0, v, lo, hi) && Split(less, v, lo, m, hi) && Rearranged(v, w, a, b)
    requires (lo <= a && b < m) || (m < a && b <= hi)
    ensures Rearranged(v0, w, lo, hi) && Split(less, w, lo, m, hi)
  {
    SplitKept(less, v, w, lo, m, hi, a, b);
    RearrangedPart(v, w, a, b, lo, hi);
    RearrangedTwice(v0, v, w, lo, hi);
  }

  /** The items hold exactly one sequence of values. */
  lemma OnlyValues<T>(s: seq<Item<T>>, v: seq<T>)
    requires Holds(s, v)
    ensures Values(s) == v
  {
  }

  lemma WholeList<T>(s: seq<Item<T>>, v: seq<T>, w: seq<T>)
    requires s != [] && Holds(s, w) && Rearranged(v, w, 0, |s| - 1)
    ensures multiset(v) == multiset(w) && Values(s) == w && |w| == |s|
  {
    hide Values;
    OnlyValues(s, w);
    assert v[0..|s|] == v && w[0..|s|] == w;
  }

  lemma ShortList<T>(less: (T, T) -> bool, s: seq<Item<T>>)
    ensures |Values(s)| == |s| && (|s| <= 1 ==> Sorted(less, Values(s), 0, |s| - 1))
  {
  }

  class List<T(!new)> {
    var begin: Item?<T>     // the first item, or none
    var last: Item?<T>      // `endItem.prev`
    ghost var items: seq<Item<T>>

    constructor ()
      ensures Valid() && items == []
    {
      begin, last := null, null;
      items := [];
    }

    ghost predicate Valid()
      reads this, Members(items)`next
    {
      && Distinct(items) && Linked(items)
      && begin == (if items == [] then null else items[0])
      && last == (if items == [] then null else items[|items| - 1])
    }

    /** `sort`: the same items in the same order, with their values sorted. */
    method Sort(less: (T, T) -> bool)
      requires Valid() && Preorder(less)
      modifies Members(items)`value
      ensures Valid() && multiset(Values(items)) == multiset(old(Values(items)))
      ensures |Values(items)| == |items| && Sorted(less, Values(items), 0, |items| - 1)
    {
      hide Preorder, Holds, Distinct, Linked, Values, Sorted, Rearranged;
      ghost var v := Values(items);
      assert allocated(Members(items));
      ShortList(less, items);
      if last == null || begin == last {
        if items != [] { Same(items, 0, |items| - 1); }
        return;
      }
      ghost var w := SortBetween(begin, last, less, items, v, 0, |items| - 1);
      WholeList(items, v, w);
    }
  }
}
