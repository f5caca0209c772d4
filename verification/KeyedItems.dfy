/** What `Map` and `MultiMap` share about keys: items that hold entries, and descending towards a key. */
module KeyedItems {
  import opened Basics
  import opened AvlShape
  import opened AvlHeap
  import opened AvlCore
  import opened KeyOrder

  /** The items in order hold the entries. */
  ghost predicate Holds<V(0)>(s: seq<Item<V>>, e: Entries<V>)
    reads Members(s)`key, Members(s)`value
  {
    |s| == |e| && forall i :: 0 <= i < |s| ==> s[i].key == e[i].0 && s[i].value == e[i].1
  }

  lemma HoldsAt<V(0)>(s: seq<Item<V>>, e: Entries<V>, i: nat)
    requires Holds(s, e) && i < |s|
    ensures |s| == |e| && s[i].key == e[i].0 && s[i].value == e[i].1
  {
  }

  lemma HoldsWith<V(0)>(s: seq<Item<V>>, e: Entries<V>, i: nat, item: Item<V>)
    requires Holds(s, e) && i <= |s|
    ensures |s| == |e| && Holds(s[..i] + [item] + s[i..], With(e, i, item.key, item.value))
  {
    var r, w := s[..i] + [item] + s[i..], With(e, i, item.key, item.value);
    forall j | 0 <= j < |r| ensures r[j].key == w[j].0 && r[j].value == w[j].1 {
      if j < i { assert r[j] == s[j]; } else if j > i { assert r[j] == s[j - 1]; }
    }
  }

  lemma HoldsWithout<V(0)>(s: seq<Item<V>>, e: Entries<V>, i: nat)
    requires Holds(s, e) && i < |s|
    ensures |s| == |e| && Holds(s[..i] + s[i + 1..], Without(e, i))
  {
    var r, w := s[..i] + s[i + 1..], Without(e, i);
    forall j | 0 <= j < |r| ensures r[j].key == w[j].0 && r[j].value == w[j].1 {
      if j < i { assert r[j] == s[j]; } else { assert r[j] == s[j + 1]; }
    }
  }

  // ---- searching ----

  /** Where a search goes from an item that has another key. */
  ghost function Onward<V(0)>(x: Item<V>, key: int): Item?<V>
    reads x`key, x`left, x`right
  {
    if key > x.key then x.right else x.left
  }

  /** The items that a search passes, from the root on, before it comes to `next`. */
  ghost predicate Passed<V(0)>(path: seq<Item<V>>, root: Item?<V>, key: int, next: Item?<V>)
    reads Members(path)`key, Members(path)`left, Members(path)`right
  {
    && (if path == [] then next == root else path[0] == root && next == Onward(path[|path| - 1], key))
    && (forall j :: 0 <= j < |path| ==> path[j].key != key)
    && (forall j :: 0 <= j < |path| - 1 ==> path[j + 1] == Onward(path[j], key))
  }

  lemma NothingPassed<V(0)>(root: Item?<V>, key: int)
    ensures Passed([], root, key, root)
  {
  }

  lemma PassedOne<V(0)>(path: seq<Item<V>>, root: Item?<V>, key: int, x: Item<V>)
    requires Passed(path, root, key, x) && x.key != key
    ensures Passed(path + [x], root, key, Onward(x, key))
  {
    var r := path + [x];
    forall j | 0 <= j < |r| - 1 ensures r[j + 1] == Onward(r[j], key) {
      if j < |path| - 1 { assert path[j + 1] == Onward(path[j], key); }
    }
  }

  // ---- holes and indices ----

  /** How many items lie before the hole, and how many before its right end. */
  ghost function Lo<V(0)>(c: Ctx<Item<V>>): nat {
    |Before(c)|
  }

  ghost function Hi<V(0)>(c: Ctx<Item<V>>, n: int): int {
    n - |After(c)|
  }

  /** The index of the root of the subtree in the hole. */
  ghost function At<V(0)>(c: Ctx<Item<V>>, t: Tree<Item<V>>): nat
    requires t.Node?
  {
    |Before(c)| + |InOrder(t.left)|
  }

  /** One step down: the hole narrows to one side of the item at its root. */
  lemma Down<V(0)>(c: Ctx<Item<V>>, t: Tree<Item<V>>)
    requires t.Node?
    ensures var s, l, r, k := InOrder(Plug(c, t)), InLeft(c, t.item, t.right), InRight(t.left, t.item, c), At(c, t);
            && k < |s| && s[k] == t.item
            && Plug(l, t.left) == Plug(c, t) && Lo(l) == Lo(c) <= k && Hi(l, |s|) == k
            && Plug(r, t.right) == Plug(c, t) && Lo(r) == k + 1 && Hi(r, |s|) == Hi(c, |s|) >= k + 1
  {
    Core<V>.PlaceInOrder(c, t);
    var s := InOrder(Plug(c, t));
    PlugOrder(c, t);
    assert |s| == |Before(c)| + |InOrder(t)| + |After(c)|;
  }

  /** At the end of the way down the hole is between two neighbours. */
  lemma Bottom<V(0)>(c: Ctx<Item<V>>, item: Item<V>)
    ensures var s := InOrder(Plug(c, Leaf));
            && Lo(c) == Hi(c, |s|) <= |s| && Before(c) + [item] + After(c) == s[..Lo(c)] + [item] + s[Lo(c)..]
  {
    PlugOrder(c, Leaf);
  }

  /** A cell holds the root of the subtree in its hole. */
  lemma Look<V(0)>(avl: Avl<V>, c: Ctx<Item<V>>, t: Tree<Item<V>>)
    requires avl.Whole(Plug(c, t))
    ensures avl.Load(CellOf(c)) == Root(t)
    ensures t.Node? ==> t.item.left == Root(t.left) && t.item.right == Root(t.right)
    ensures CellItem(CellOf(c)) <= CtxItems(c)
  {
    avl.WholeCut(c, t);
  }

  /** An item, cut out of the tree, with its index and its neighbours in the list. */
  lemma Locate<V(0)>(core: Core<V>, e: Entries<V>, item: Item<V>) returns (c: Ctx<Item<V>>, t: Tree<Item<V>>, k: nat)
    requires core.Valid() && Holds(core.Order(), e) && item in Items(core.tree)
    ensures (c, t) == Focus(core.tree, item, Top)
    ensures Plug(c, t) == core.tree && t.Node? && t.item == item && k == At(c, t)
    ensures |core.Order()| == |e| && k < |e| && core.Order()[k] == item && item.key == e[k].0
    ensures item.prev == PrevAt(core.Order(), k) && item.next == NextAt(core.Order(), k, core.endItem)
    ensures k > 0 ==> item.prev.key == e[k - 1].0
    ensures k + 1 < |e| ==> item.next.key == e[k + 1].0
    ensures item != core.endItem && (item.next == core.endItem <==> k + 1 == |e|)
  {
    hide AvlShape.Plug, AvlShape.InOrder, AvlShape.Before, AvlShape.After, Avl.Whole, Chained, Distinct;
    c, t := Focus(core.tree, item, Top).0, Focus(core.tree, item, Top).1;
    Core<V>.FocusTop(core.tree, item);
    k := At(c, t);
    Down(c, t);
    core.EndApart();
  }

  /** The item before the end. */
  lemma LastItem<V(0)>(core: Core<V>, e: Entries<V>)
    requires core.Valid() && Holds(core.Order(), e) && core.endItem.prev != null
    ensures core.endItem.prev in Items(core.tree) && core.endItem.prev.next == core.endItem
    ensures |e| > 0 && core.endItem.prev.key == e[|e| - 1].0
  {
    hide AvlShape.InOrder, AvlShape.Items, Avl.Whole, Chained, Distinct;
    core.OrderFacts();
    var s := core.Order();
    assert core.endItem.prev == s[|s| - 1] && s[|s| - 1] in Members(s);
    assert s[|s| - 1].next == NextAt(s, |s| - 1, core.endItem);
  }

  /** The index behind an item and its right subtree. */
  ghost function Behind<V(0)>(t: Tree<Item<V>>, item: Item<V>): nat
    requires item in Items(t)
  {
    var (c, s) := Focus(t, item, Top);
    At(c, s) + 1 + |InOrder(s.right)|
  }

  lemma ConsMembers<V(0)>(x: Item<V>, s: seq<Item<V>>)
    ensures Members([x] + s) == {x} + Members(s)
  {
  }

  /** The index that an item left, and the position after it. */
  lemma GoneAt<V(0)>(s: seq<Item<V>>, item: Item<V>, r: seq<Item<V>>, next: Item<V>, end: Item<V>) returns (k: nat)
    requires Gone(s, item, r, next, end)
    ensures k < |s| && s[k] == item && r == s[..k] + s[k + 1..] && next == NextAt(s, k, end) && (next == end || next in Members(r))
  {
    k :| 0 <= k < |s| && s[k] == item && r == s[..k] + s[k + 1..] && next == NextAt(s, k, end);
    if k + 1 < |s| { assert r[k] == s[k + 1]; }
  }
}
