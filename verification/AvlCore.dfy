/**
 The part of `Map` and `MultiMap` that does not look at keys: the tree together with the doubly
 linked list threaded through its items in order, the size, and the chain of free items.
 */
module AvlCore {
  import opened Basics
  import opened AvlShape
  import opened AvlHeap

  /** The item before (after) index `i`. */
  ghost function PrevAt<V(0)>(s: seq<Item<V>>, i: nat): Item?<V>
    requires i <= |s|
  {
    if i == 0 then null else s[i - 1]
  }

  ghost function NextAt<V(0)>(s: seq<Item<V>>, i: nat, end: Item<V>): Item<V>
    requires i < |s|
  {
    if i + 1 == |s| then end else s[i + 1]
  }

  /** `next` and `prev` thread the items in order between `begin` and the end item. */
  ghost predicate Threaded<V(0)>(s: seq<Item<V>>, begin: Item<V>, end: Item<V>)
    reads Members(s)`next, Members(s)`prev, end`prev
  {
    && (forall i :: 0 <= i < |s| ==> s[i].prev == PrevAt(s, i) && s[i].next == NextAt(s, i, end))
    && end.prev == PrevAt(s, |s|)
    && begin == (if s == [] then end else s[0])
  }

  ghost function ChainAt<V(0)>(s: seq<Item<V>>, i: nat): Item?<V>
    requires i < |s|
  {
    if i + 1 == |s| then null else s[i + 1]
  }

  /** The items that `prev` chains from `head`. */
  ghost predicate Chained<V(0)>(s: seq<Item<V>>, head: Item?<V>)
    reads Members(s)`prev
  {
    && head == (if s == [] then null else s[0])
    && forall i :: 0 <= i < |s| ==> s[i].prev == ChainAt(s, i)
  }

  lemma ChainCons<V(0)>(x: Item<V>, s: seq<Item<V>>)
    requires Chained(s, x.prev)
    ensures Chained([x] + s, x)
  {
    var r := [x] + s;
    forall i | 0 <= i < |r| ensures r[i].prev == ChainAt(r, i) {
      if i > 0 { assert r[i] == s[i - 1] && s[i - 1].prev == ChainAt(s, i - 1); }
    }
  }

  lemma ChainTail<V(0)>(s: seq<Item<V>>, head: Item<V>)
    requires Chained(s, head)
    ensures s != [] && Chained(s[1..], head.prev)
  {
    var r := s[1..];
    assert s[0].prev == ChainAt(s, 0);
    forall i | 0 <= i < |r| ensures r[i].prev == ChainAt(r, i) {
      assert r[i] == s[i + 1] && s[i + 1].prev == ChainAt(s, i + 1);
    }
  }

  /** The order `s` without one item, and the item after it (or the end item). */
  ghost predicate Gone<V(0)>(s: seq<Item<V>>, item: Item<V>, r: seq<Item<V>>, next: Item<V>, end: Item<V>) {
    exists k :: 0 <= k < |s| && s[k] == item && r == s[..k] + s[k + 1..] && next == NextAt(s, k, end)
  }

  class Core<V(0)> {
    const avl: Avl<V>
    const endItem: Item<V>
    var begin: Item<V>
    var size: nat
    var freeItem: Item?<V>
    ghost var tree: Tree<Item<V>>
    ghost var free: seq<Item<V>>

    ghost function Order(): seq<Item<V>>
      reads this
    {
      InOrder(tree)
    }

    ghost predicate Valid()
      reads this, avl, endItem`prev, Items(tree)`left, Items(tree)`right, Items(tree)`parent, Items(tree)`height, Items(tree)`slope
      reads Members(Order())`next, Members(Order())`prev, Members(free)`prev
    {
      && avl.Whole(tree)
      && Threaded(Order(), begin, endItem)
      && size == |Order()|
      && Chained(free, freeItem)
      && Distinct(free) && endItem !in Members(free) && endItem !in Items(tree) && Members(free) !! Items(tree)
    }

    constructor ()
      ensures Valid() && Order() == [] && free == []
      ensures fresh(avl) && fresh(endItem)
    {
      var end := new Item<V>();
      endItem := end;
      begin := end;
      avl := new Avl<V>();
      size := 0;
      freeItem := null;
      tree := Leaf;
      free := [];
      new;
      endItem.prev := null;
    }

    // ---- the list ----

    /** Links an item into the list before `insertPos`. */
    method LinkBefore(item: Item<V>, insertPos: Item<V>)
      requires item != insertPos && item != insertPos.prev && insertPos != insertPos.prev
      modifies this`begin, item`next, item`prev, Single(insertPos.prev)`next, insertPos`prev
      ensures item.prev == old(insertPos.prev) && item.next == insertPos && insertPos.prev == item
      ensures if item.prev != null then item.prev.next == item && begin == old(begin) else begin == item
    {
      item.prev := insertPos.prev;
      if item.prev != null {
        insertPos.prev.next := item;
      } else {
        begin := item;
      }
      item.next := insertPos;
      insertPos.prev := item;
    }

    /** The same, seen in the order: the new item goes in at index `k`. */
    method LinkAt(item: Item<V>, insertPos: Item<V>, ghost s: seq<Item<V>>, ghost k: nat)
      requires Threaded(s, begin, endItem) && Distinct(s) && item != endItem
      requires forall j :: 0 <= j < |s| ==> s[j] != endItem && s[j] != item
      requires k <= |s| && insertPos == (if k == |s| then endItem else s[k])
      modifies this`begin, item`next, item`prev, Members(s)`next, Members(s)`prev, endItem`prev
      ensures Threaded(s[..k] + [item] + s[k..], begin, endItem)
    {
      assert insertPos.prev == PrevAt(s, k) by { if k < |s| { assert s[k].prev == PrevAt(s, k); } }
      Apart(s, k - 1);
      Apart(s, k);
      LinkBefore(item, insertPos);
      Inserted(s, k, item);
    }

    static lemma Apart(s: seq<Item<V>>, k: int)
      requires Distinct(s)
      ensures 0 <= k < |s| ==> forall j :: 0 <= j < |s| && j != k ==> s[j] != s[k]
    {
    }

    lemma Inserted(s: seq<Item<V>>, k: nat, item: Item<V>)
      requires k <= |s|
      requires forall j :: 0 <= j < |s| && j != k - 1 ==> s[j].next == NextAt(s, j, endItem)
      requires forall j :: 0 <= j < |s| && j != k ==> s[j].prev == PrevAt(s, j)
      requires (k > 0 ==> s[k - 1].next == item) && (k < |s| ==> s[k].prev == item)
      requires item.prev == (if k == 0 then null else s[k - 1]) && item.next == (if k == |s| then endItem else s[k])
      requires endItem.prev == (if k == |s| then item else s[|s| - 1]) && begin == (if k == 0 then item else s[0])
      ensures Threaded(s[..k] + [item] + s[k..], begin, endItem)
    {
      var r := s[..k] + [item] + s[k..];
      forall i | 0 <= i < |r|
        ensures r[i].prev == PrevAt(r, i) && r[i].next == NextAt(r, i, endItem)
      {
        if i < k { assert r[i] == s[i]; } else if i > k { assert r[i] == s[i - 1]; }
      }
    }

    /** Takes the item at index `k` out of the list; its own `next` stays. */
    method Unlink(item: Item<V>, ghost s: seq<Item<V>>, ghost k: nat)
      requires Threaded(s, begin, endItem) && Distinct(s) && forall j :: 0 <= j < |s| ==> s[j] != endItem
      requires k < |s| && item == s[k]
      modifies this`begin, Members(s)`next, Members(s)`prev, endItem`prev
      ensures Threaded(s[..k] + s[k + 1..], begin, endItem)
      ensures item.next == (if k + 1 == |s| then endItem else s[k + 1])
    {
      ghost var p := PrevAt(s, k);
      ghost var n := NextAt(s, k, endItem);
      assert item.prev == p && item.next == n;
      Apart(s, k - 1);
      Apart(s, k);
      Apart(s, k + 1);
      if item.prev == null {
        begin := item.next;
        begin.prev := null;
      } else {
        item.prev.next := item.next;
        item.prev.next.prev := item.prev;
      }
      Removed(s, k);
    }

    lemma Removed(s: seq<Item<V>>, k: nat)
      requires k < |s|
      requires forall j :: 0 <= j < |s| && j != k - 1 ==> s[j].next == NextAt(s, j, endItem)
      requires forall j :: 0 <= j < |s| && j != k + 1 ==> s[j].prev == PrevAt(s, j)
      requires k > 0 ==> s[k - 1].next == if k + 1 == |s| then endItem else s[k + 1]
      requires k + 1 < |s| ==> s[k + 1].prev == if k == 0 then null else s[k - 1]
      requires endItem.prev == (if k + 1 < |s| then s[|s| - 1] else if k == 0 then null else s[k - 1])
      requires begin == (if k > 0 then s[0] else if |s| == 1 then endItem else s[1])
      ensures Threaded(s[..k] + s[k + 1..], begin, endItem)
    {
      var r := s[..k] + s[k + 1..];
      forall i | 0 <= i < |r|
        ensures r[i].prev == PrevAt(r, i) && r[i].next == NextAt(r, i, endItem)
      {
        if i < k { assert r[i] == s[i]; } else { assert r[i] == s[i + 1]; }
      }
    }

    // ---- storage ----

    /** A new block of four items on the empty free chain. */
    method Refill()
      requires free == []
      modifies this`freeItem, this`free
      ensures Chained(free, freeItem) && Distinct(free) && |free| == 4 && fresh(Members(free))
    {
      var item: Item?<V> := null;
      for i := 0 to 4
        invariant |free| == i && Chained(free, item) && Distinct(free) && fresh(Members(free))
      {
        var slot := new Item<V>();
        assert slot !in Members(free);
        slot.prev := item;
        item := slot;
        ChainCons(slot, free);
        assert Members([slot] + free) == {slot} + Members(free);
        free := [slot] + free;
      }
      freeItem := item;
    }

    /** An item from the free chain; its `prev` and `next` keep what they hold. */
    method Take(parent: Item?<V>, key: int, value: V) returns (item: Item<V>)
      requires Chained(free, freeItem) && Distinct(free)
      modifies this`freeItem, this`free, Members(free)
      ensures Chained(free, freeItem) && Distinct(free) && item !in free
      ensures old(free) != [] ==> item == old(free)[0] && free == old(free)[1..]
      ensures old(free) == [] ==> fresh(item) && fresh(Members(free))
      ensures item.key == key && item.value == value && item.parent == parent
      ensures item.left == null && item.right == null && item.height == 1 && item.slope == 0
    {
      if freeItem == null {
        Refill();
      }
      item := freeItem;
      assert item in Members(free);
      ChainTail(free, item);
      item.Construct(parent, key, value);
      freeItem := item.prev;
      assert Members(free[1..]) <= Members(free);
      free := free[1..];
    }

    /** Puts a removed item on the free chain. */
    method Release(item: Item<V>)
      requires Chained(free, freeItem) && Distinct(free) && item !in Members(free)
      modifies this`freeItem, this`free, item`prev
      ensures Chained(free, freeItem) && Distinct(free) && free == [item] + old(free)
    {
      assert forall i :: 0 <= i < |free| ==> free[i] in Members(free);
      item.prev := freeItem;
      freeItem := item;
      ChainCons(item, free);
      free := [item] + free;
    }

    // ---- insertion ----

    /** A constructed item and the empty cell it is to fill, in a tree in order. */
    ghost predicate Placeable(cell: Cell<V>, item: Item<V>, c: Ctx<Item<V>>)
      reads avl, item, CtxItems(c), Items(Plug(c, Leaf))
    {
      && avl.Whole(Plug(c, Leaf)) && cell == CellOf(c) && item !in CtxItems(c)
      && item.left == null && item.right == null && item.height == 1 && item.slope == 0 && item.parent == Parent(c)
    }

    /** A list in order, without the item that is to go into it. */
    ghost predicate Linkable(item: Item<V>, s: seq<Item<V>>)
      reads this`begin, endItem`prev, Members(s)`next, Members(s)`prev
    {
      && Threaded(s, begin, endItem) && Distinct(s) && item != endItem
      && forall j :: 0 <= j < |s| ==> s[j] != endItem && s[j] != item
    }

    /** `*cell = item`: the new item fills the hole, whose context took it to be empty. */
    method Place(cell: Cell<V>, item: Item<V>, ghost c: Ctx<Item<V>>)
      requires Placeable(cell, item, c)
      modifies avl`root, CtxItems(c)`left, CtxItems(c)`right
      ensures avl.Pending(c, Node(Leaf, item, Leaf), 0)
    {
      avl.WholeCut(c, Leaf);
      assert c.InLeft? ==> c.item !in CtxItems(c.up) && c.item !in Items(c.right);
      assert c.InRight? ==> c.item !in CtxItems(c.up) && c.item !in Items(c.left);
      assert allocated(CtxItems(c)) && (!c.Top? ==> allocated(CtxItems(c.up)) && allocated(Items(Sibling(c))));
      avl.Store(cell, item);
      avl.StoredCtx(c);
      KeepCtxCached((c, 0));
    }

    /** What the tree says about the order. */
    lemma OrderFacts()
      requires Valid()
      ensures Distinct(Order()) && Members(Order()) == Items(tree)
    {
      ProperDistinct(tree);
      TreeMembers(tree);
    }

    static lemma TreeMembers(t: Tree<Item<V>>)
      ensures Members(InOrder(t)) == Items(t)
    {
      forall x ensures x in Members(InOrder(t)) <==> x in Items(t) { OrderItems(t, x); }
    }

    method LinkFirst(item: Item<V>)
      requires Threaded([], begin, endItem) && item != endItem
      modifies this`begin, item`next, item`prev, endItem`prev
      ensures Threaded([item], begin, endItem)
    {
      item.prev := null;
      item.next := begin;
      begin := item;
      endItem.prev := item;
    }

    /** Where the hole of a context is in the order of the items around it. */
    static lemma HoleIndex(c: Ctx<Item<V>>, item: Item<V>)
      ensures var s, k := Before(c) + After(c), |Before(c)|;
              && (c.Top? ==> s == [])
              && (c.InRight? ==> 0 < k && s[k - 1] == c.item)
              && (c.InLeft? ==> k < |s| && s[k] == c.item)
              && s[..k] + [item] + s[k..] == Before(c) + [item] + After(c)
    {
      var s, k := Before(c) + After(c), |Before(c)|;
      assert s[..k] == Before(c) && s[k..] == After(c);
    }

    /** The list half of an insertion: next to the parent, on the side of the cell. */
    method LinkNew(cell: Cell<V>, parent: Item?<V>, item: Item<V>, ghost c: Ctx<Item<V>>, ghost s: seq<Item<V>>)
      requires cell == CellOf(c) && parent == Parent(c) && s == Before(c) + After(c) && Linkable(item, s)
      modifies this`begin, item`next, item`prev, endItem`prev, Members(s)`next, Members(s)`prev
      ensures Threaded(Before(c) + [item] + After(c), begin, endItem)
    {
      ghost var k := |Before(c)|;
      HoleIndex(c, item);
      if parent == null {
        assert s[..k] + [item] + s[k..] == [item];
        LinkFirst(item);
      } else {
        var insertPos := if cell == AtRight(parent) then parent.next else parent;
        assert c.InRight? ==> s[k - 1].next == NextAt(s, k - 1, endItem);
        LinkAt(item, insertPos, s, k);
      }
    }

    /** The parts of `Valid` before the rebalancing of an insertion. */
    lemma HoleFacts(c: Ctx<Item<V>>)
      requires Valid() && Plug(c, Leaf) == tree
      ensures Order() == Before(c) + After(c) && Items(tree) == CtxItems(c)
    {
      PlugOrder(c, Leaf);
    }

    /** The free chain, and its distance from the live items. */
    ghost predicate FreeOk(live: set<Item<V>>)
      reads this`free, this`freeItem, Members(free)`prev
    {
      && Chained(free, freeItem) && Distinct(free)
      && endItem !in Members(free) && endItem !in live && Members(free) !! live
    }

    lemma ValidParts()
      ensures Valid() <==> avl.Whole(tree) && Threaded(Order(), begin, endItem) && size == |Order()| && FreeOk(Items(tree))
    {
    }

    /** A new item for an empty cell. */
    method TakeNew(cell: Cell<V>, parent: Item?<V>, key: int, value: V, ghost c: Ctx<Item<V>>) returns (item: Item<V>)
      requires Valid() && Plug(c, Leaf) == tree && cell == CellOf(c) && parent == Parent(c)
      modifies this`freeItem, this`free, Members(free)
      ensures Placeable(cell, item, c) && Linkable(item, Order()) && FreeOk(Items(tree) + {item})
      ensures Members(free) !! Items(tree) + {item, endItem}
      ensures item.key == key && item.value == value
      ensures old(free) != [] ==> item == old(free)[0] && free == old(free)[1..]
      ensures old(free) == [] ==> fresh(item) && fresh(Members(free))
    {
      hide Avl.Whole, Threaded, Distinct, Chained;
      hide AvlShape.Plug, AvlShape.Items, AvlShape.CtxItems, AvlShape.Before, AvlShape.After, AvlShape.InOrder;
      OrderFacts();
      HoleFacts(c);
      assert allocated(Items(tree)) && allocated(Members(Order())) && allocated(endItem);
      item := Take(parent, key, value);
      assert item !in Items(tree) && item != endItem;
      NotMember(Order(), item);
      NotMember(Order(), endItem);
    }

    static lemma NotMember(s: seq<Item<V>>, x: Item<V>)
      requires x !in Members(s)
      ensures forall j :: 0 <= j < |s| ==> s[j] != x
    {
    }

    /** The new item goes into the cell and into the list. */
    method LinkIn(cell: Cell<V>, parent: Item?<V>, item: Item<V>, ghost c: Ctx<Item<V>>, ghost s: seq<Item<V>>)
      requires Placeable(cell, item, c) && Linkable(item, s)
      requires cell == CellOf(c) && parent == Parent(c) && s == Before(c) + After(c) && Members(s) == CtxItems(c)
      modifies avl`root, this`begin, item`next, item`prev, endItem`prev
      modifies CtxItems(c)`left, CtxItems(c)`right, CtxItems(c)`next, CtxItems(c)`prev
      ensures avl.Pending(c, Node(Leaf, item, Leaf), 0)
      ensures Threaded(Before(c) + [item] + After(c), begin, endItem)
    {
      hide Linkable, Placeable, Avl.Pending, Threaded;
      assert allocated(Members(s));
      Place(cell, item, c);
      assert allocated(Avl<V>.All(c, Node(Leaf, item, Leaf)));
      LinkNew(cell, parent, item, c, s);
    }

    /** A new item in an empty cell and in the list, with the tree still to be rebalanced. */
    method Enter(cell: Cell<V>, parent: Item?<V>, key: int, value: V, ghost c: Ctx<Item<V>>) returns (item: Item<V>)
      requires Valid() && Plug(c, Leaf) == tree && cell == CellOf(c) && parent == Parent(c)
      modifies this`begin, this`size, this`freeItem, this`free, avl, endItem`prev, Members(free)
      modifies Items(tree)`left, Items(tree)`right, Items(tree)`next, Items(tree)`prev
      ensures avl.Pending(c, Node(Leaf, item, Leaf), 0) && FreeOk(Items(tree) + {item})
      ensures var now := Before(c) + [item] + After(c); Threaded(now, begin, endItem) && size == |now|
      ensures item.key == key && item.value == value
      ensures old(free) != [] ==> item == old(free)[0] && free == old(free)[1..]
      ensures old(free) == [] ==> fresh(item) && fresh(Members(free))
    {
      hide Valid, Linkable, Placeable, FreeOk, Avl.Whole, Avl.Pending, Threaded, Distinct, Chained;
      hide AvlShape.Plug, AvlShape.Items, AvlShape.CtxItems, AvlShape.Before, AvlShape.After, AvlShape.InOrder;
      ghost var order := Order();
      ValidParts();
      OrderFacts();
      HoleFacts(c);
      item := TakeNew(cell, parent, key, value, c);
      assert allocated(Members(free));
      LinkIn(cell, parent, item, c, order);
      size := size + 1;
    }

    /**
     An insertion into an empty cell: takes an item from the free chain, links it into the tree and
     the list, and rebalances upwards.
     */
    method Attach(cell: Cell<V>, parent: Item?<V>, key: int, value: V, ghost c: Ctx<Item<V>>) returns (item: Item<V>)
      requires Valid() && Plug(c, Leaf) == tree && cell == CellOf(c) && parent == Parent(c)
      modifies this`begin, this`size, this`freeItem, this`tree, this`free, avl, endItem`prev, Members(free)
      modifies Items(tree)`left, Items(tree)`right, Items(tree)`parent, Items(tree)`height, Items(tree)`slope
      modifies Items(tree)`next, Items(tree)`prev
      ensures Valid() && Order() == Before(c) + [item] + After(c) && Items(tree) == old(Items(tree)) + {item}
      ensures item.key == key && item.value == value
      ensures old(free) != [] ==> item == old(free)[0] && free == old(free)[1..]
      ensures old(free) == [] ==> fresh(item) && fresh(Members(free))
    {
      hide Valid, FreeOk, Avl.Whole, Avl.Pending, Threaded, Distinct, Chained;
      hide AvlShape.Plug, AvlShape.Items, AvlShape.CtxItems, AvlShape.Before, AvlShape.After, AvlShape.InOrder;
      HoleFacts(c);
      item := Enter(cell, parent, key, value, c);
      ghost var now, live := Before(c) + [item] + After(c), Items(tree) + {item};
      SingleNode(item);
      assert fresh(item) || item in old(Members(free));
      assert allocated(Members(now)) && allocated(Members(free));
      tree := avl.RebalanceUpwards(parent, c, Node(Leaf, item, Leaf), 0);
      assert Order() == now && Items(tree) == live;
      ValidParts();
    }

    // ---- removal ----

    static lemma MiddleOf<X>(a: seq<X>, l: seq<X>, x: X, r: seq<X>, b: seq<X>)
      ensures var s, k := a + (l + [x] + r) + b, |a| + |l|;
              && k < |s| && s[k] == x && s[..k] + s[k + 1..] == a + l + r + b
              && (r != [] ==> k + 1 < |s| && s[k + 1] == r[0]) && (l != [] ==> k > 0 && s[k - 1] == l[|l| - 1])
    {
      var s, k := a + (l + [x] + r) + b, |a| + |l|;
      assert s[..k] == a + l && s[k + 1..] == r + b;
    }

    /** The first and the last item of a subtree in its order. */
    static lemma Ends(t: Tree<Item<V>>)
      requires t.Node?
      ensures var s := InOrder(t); s != [] && s[0] == First(t, Top).1 && s[|s| - 1] == Last(t, Top).1
    {
      var f, g := First(t, Top), Last(t, Top);
      PlugOrder(f.0, Node(Leaf, f.1, f.2));
      PlugOrder(g.0, Node(g.2, g.1, Leaf));
    }

    /** An item's place in the order, from its place in the tree. */
    static lemma PlaceInOrder(c: Ctx<Item<V>>, t: Tree<Item<V>>)
      requires t.Node?
      ensures var s, k := InOrder(Plug(c, t)), |Before(c)| + |InOrder(t.left)|;
              && k < |s| && s[k] == t.item
              && s[..k] + s[k + 1..] == Before(c) + InOrder(t.left) + InOrder(t.right) + After(c)
              && (t.right.Node? ==> NextAt(s, k, t.item) == First(t.right, Top).1 && k + 1 < |s|)
              && (t.left.Node? ==> PrevAt(s, k) == Last(t.left, Top).1)
      ensures Avl<V>.All(c, t) == Items(Plug(c, t))
    {
      hide *;
      PlugOrder(c, t);
      NodeOrder(t);
      MiddleOf(Before(c), InOrder(t.left), t.item, InOrder(t.right), After(c));
      Neighbours(InOrder(Plug(c, t)), |Before(c)| + |InOrder(t.left)|, t);
      AllItems(c, t);
    }

    static lemma NodeOrder(t: Tree<Item<V>>)
      requires t.Node?
      ensures InOrder(t) == InOrder(t.left) + [t.item] + InOrder(t.right)
      ensures t.right.Leaf? ==> InOrder(t.right) == []
      ensures t.left.Leaf? ==> InOrder(t.left) == []
    {
    }

    static lemma AllItems(c: Ctx<Item<V>>, t: Tree<Item<V>>)
      ensures Avl<V>.All(c, t) == Items(t) + CtxItems(c)
    {
    }

    static lemma Neighbours(s: seq<Item<V>>, k: nat, t: Tree<Item<V>>)
      requires t.Node? && k < |s|
      requires InOrder(t.right) != [] ==> k + 1 < |s| && s[k + 1] == InOrder(t.right)[0]
      requires InOrder(t.left) != [] ==> k > 0 && s[k - 1] == InOrder(t.left)[|InOrder(t.left)| - 1]
      ensures t.right.Node? ==> k + 1 < |s| && NextAt(s, k, t.item) == First(t.right, Top).1
      ensures t.left.Node? ==> PrevAt(s, k) == Last(t.left, Top).1
    {
      hide AvlShape.First, AvlShape.Last, AvlShape.InOrder;
      if t.left.Node? { Ends(t.left); }
      if t.right.Node? { Ends(t.right); }
    }

    /** What `remove` reads from the links of the item. */
    lemma ItemIndex(c: Ctx<Item<V>>, t: Tree<Item<V>>)
      requires Threaded(InOrder(Plug(c, t)), begin, endItem) && t.Node?
      ensures var s, k := InOrder(Plug(c, t)), |Before(c)| + |InOrder(t.left)|;
              && k < |s| && s[k] == t.item && t.item.next == NextAt(s, k, endItem)
              && s[..k] + s[k + 1..] == Before(c) + InOrder(t.left) + InOrder(t.right) + After(c)
              && (t.left.Node? && t.right.Node? ==> t.item.next == First(t.right, Top).1 && t.item.prev == Last(t.left, Top).1)
      ensures Avl<V>.All(c, t) == Items(Plug(c, t))
    {
      hide AvlShape.Plug, AvlShape.Before, AvlShape.After, AvlShape.InOrder, AvlShape.First, AvlShape.Last, AvlShape.Items, AvlShape.CtxItems;
      PlaceInOrder(c, t);
      var s, k := InOrder(Plug(c, t)), |Before(c)| + |InOrder(t.left)|;
      assert s[k].next == NextAt(s, k, endItem) && s[k].prev == PrevAt(s, k);
    }

    /** The free chain is apart from the live items. */
    lemma FreeParts(live: set<Item<V>>, item: Item<V>)
      requires FreeOk(live) && item in live
      ensures Chained(free, freeItem) && Distinct(free) && item !in Members(free) && item != endItem
      ensures Members(free) !! live + {endItem} && endItem !in live
    {
    }

    lemma FreeGrown(live: set<Item<V>>, item: Item<V>, was: seq<Item<V>>)
      requires Chained(free, freeItem) && Distinct(free) && free == [item] + was
      requires endItem !in Members(was) && endItem !in live && Members(was) !! live && item in live
      ensures FreeOk(live - {item})
    {
      assert Members(free) == {item} + Members(was);
    }

    /** The list half of a removal. */
    method Retire(item: Item<V>, ghost s: seq<Item<V>>, ghost k: nat, ghost live: set<Item<V>>) returns (next: Item<V>)
      requires Threaded(s, begin, endItem) && Distinct(s) && forall j :: 0 <= j < |s| ==> s[j] != endItem
      requires k < |s| && item == s[k] && item in live && FreeOk(live) && Members(s) == live && size == |s|
      modifies this`begin, this`size, this`freeItem, this`free, live`next, live`prev, endItem`prev
      ensures Threaded(s[..k] + s[k + 1..], begin, endItem) && FreeOk(live - {item}) && free == [item] + old(free)
      ensures size == old(size) - 1 && next == NextAt(s, k, endItem)
    {
      hide Threaded, FreeOk, Chained, Distinct;
      FreeParts(live, item);
      ghost var rest := s[..k] + s[k + 1..];
      WithoutItem(s, k);
      assert allocated(Members(s)) && allocated(Members(free)) && allocated(Members(rest));
      Unlink(item, s, k);
      size := size - 1;
      assert Threaded(rest, begin, endItem) && item !in Members(rest);
      Release(item);
      next := item.next;
      FreeGrown(live, item, old(free));
    }

    static lemma WithoutItem(s: seq<Item<V>>, k: nat)
      requires Distinct(s) && k < |s|
      ensures Members(s[..k] + s[k + 1..]) == Members(s) - {s[k]}
    {
      var r := s[..k] + s[k + 1..];
      forall x ensures x in Members(r) <==> x in Members(s) - {s[k]} {
        if x in s && x != s[k] {
          var i :| 0 <= i < |s| && s[i] == x;
          assert r[if i < k then i else i - 1] == x;
        }
      }
    }

    static lemma FocusTop(t: Tree<Item<V>>, item: Item<V>)
      requires item in Items(t)
      ensures Plug(Focus(t, item, Top).0, Focus(t, item, Top).1) == t
    {
    }

    /** `remove`: takes an item out of the tree and the list and keeps its storage. */
    method Remove(item: Item<V>) returns (next: Item<V>)
      requires Valid() && item in Items(tree)
      modifies this`begin, this`size, this`freeItem, this`tree, this`free, avl, endItem`prev
      modifies Items(tree)`left, Items(tree)`right, Items(tree)`parent, Items(tree)`height, Items(tree)`slope
      modifies Items(tree)`next, Items(tree)`prev
      ensures Valid() && Items(tree) == old(Items(tree)) - {item} && free == [item] + old(free)
      ensures Gone(old(Order()), item, Order(), next, endItem)
    {
      hide Valid, FreeOk, Avl.Whole, Threaded, Distinct, Chained;
      hide AvlShape.Items, AvlShape.CtxItems, AvlShape.Before, AvlShape.After, AvlShape.InOrder, AvlShape.Plug;
      ghost var order, live := Order(), Items(tree);
      ghost var c, t := Focus(tree, item, Top).0, Focus(tree, item, Top).1;
      ghost var k := |Before(c)| + |InOrder(t.left)|;
      FocusTop(tree, item);
      ValidParts();
      OrderFacts();
      ItemIndex(c, t);
      EndApart();
      assert allocated(Members(order)) && allocated(Members(free)) && allocated(live);
      FreeParts(live, item);
      tree := avl.Remove(item, c, t);
      ghost var rest := order[..k] + order[k + 1..];
      assert Order() == rest && Items(tree) == live - {item};
      TreeMembers(tree);
      assert allocated(Members(rest)) && allocated(Items(tree));
      next := Retire(item, order, k, live);
      ValidParts();
    }

    static ghost function Backwards(s: seq<Item<V>>): seq<Item<V>> {
      if s == [] then [] else Backwards(s[1..]) + [s[0]]
    }

    static lemma {:induction false} BackwardsMembers(s: seq<Item<V>>)
      ensures Members(Backwards(s)) == Members(s)
    {
      if s != [] {
        BackwardsMembers(s[1..]);
        assert s == [s[0]] + s[1..] && Members(s) == {s[0]} + Members(s[1..]);
        assert Members(Backwards(s[1..]) + [s[0]]) == Members(Backwards(s[1..])) + {s[0]};
      }
    }

    static lemma {:induction false} BackwardsSnoc(s: seq<Item<V>>, x: Item<V>)
      ensures Backwards(s + [x]) == [x] + Backwards(s)
    {
      var r := s + [x];
      if s != [] {
        assert r[0] == s[0] && r[1..] == s[1..] + [x];
        BackwardsSnoc(s[1..], x);
      } else {
        assert r[1..] == [];
      }
    }

    static lemma TailMembers(s: seq<Item<V>>, k: nat)
      requires Distinct(s) && k < |s|
      ensures Members(s[k + 1..]) == Members(s[k..]) - {s[k]} && s[k] in Members(s[k..])
      ensures s[..k + 1] == s[..k] + [s[k]] && s[k] in Members(s)
    {
      var a, b := s[k..], s[k + 1..];
      assert a == [s[k]] + b && a[0] == s[k];
    }

    /** The `next` half of the list. */
    ghost predicate Forward(s: seq<Item<V>>)
      reads Members(s)`next
    {
      forall j :: 0 <= j < |s| ==> s[j].next == NextAt(s, j, endItem)
    }

    lemma ForwardStart(s: seq<Item<V>>)
      requires Threaded(s, begin, endItem)
      ensures Backwards([]) == [] && Forward(s) && begin == if s == [] then endItem else s[0]
    {
    }

    lemma ForwardAt(s: seq<Item<V>>, k: nat)
      requires Forward(s) && k < |s|
      ensures s[k].next == if k + 1 == |s| then endItem else s[k + 1]
    {
      assert s[k].next == NextAt(s, k, endItem);
    }

    /** Puts the whole list on the free chain. */
    method ReleaseAll(ghost s: seq<Item<V>>)
      requires Threaded(s, begin, endItem) && Distinct(s) && FreeOk(Members(s))
      modifies this`freeItem, this`free, Members(s)`prev
      ensures FreeOk({}) && free == Backwards(s) + old(free)
    {
      hide Chained, Distinct, FreeOk, Forward, Threaded, Backwards, Members;
      var i := begin;
      ghost var k := 0;
      assert s[..0] == [] && s[0..] == s && allocated(Members(s));
      ForwardStart(s);
      while i != endItem
        invariant k <= |s| && i == (if k == |s| then endItem else s[k])
        invariant Forward(s)
        invariant FreeOk(Members(s[k..])) && free == Backwards(s[..k]) + old(free)
        decreases |s| - k
      {
        ghost var was := free;
        TailMembers(s, k);
        FreeParts(Members(s[k..]), i);
        Release(i);
        FreeGrown(Members(s[k..]), i, was);
        BackwardsSnoc(s[..k], i);
        ForwardAt(s, k);
        i := i.next;
        k := k + 1;
      }
      EndOutside(s, k);
    }

    lemma EndOutside(s: seq<Item<V>>, k: nat)
      requires k <= |s| && (k < |s| ==> s[k] == endItem) && FreeOk(Members(s[k..]))
      ensures k == |s| && Members(s[k..]) == {} && s[..k] == s
    {
    }

    /** `clear`: keeps the storage of every item. */
    method Clear()
      requires Valid()
      modifies this`begin, this`size, this`freeItem, this`tree, this`free, avl`root, endItem`prev, Members(Order())`prev
      ensures Valid() && Order() == [] && free == Backwards(old(Order())) + old(free)
      ensures Items(tree) + Members(free) == old(Items(tree) + Members(free))
    {
      hide Valid, FreeOk, Distinct, Threaded;
      hide AvlShape.InOrder, AvlShape.Items;
      OrderFacts();
      ValidParts();
      BackwardsMembers(Order());
      ReleaseAll(Order());
      EndNotFree();
      assert allocated(Members(free));
      begin := endItem;
      endItem.prev := null;
      size := 0;
      avl.root := null;
      tree := Leaf;
      Emptied();
    }

    lemma EndNotFree()
      requires FreeOk({})
      ensures endItem !in Members(free)
    {
    }

    lemma Emptied()
      requires avl.root == null && tree == Leaf && begin == endItem && endItem.prev == null && size == 0 && FreeOk({})
      ensures Valid() && Order() == []
      ensures Items(tree) == {}
    {
    }

    lemma EndApart()
      requires Valid()
      ensures forall j :: 0 <= j < |Order()| ==> Order()[j] != endItem
      ensures Members(free) !! Items(tree) + {endItem} && endItem !in Items(tree)
    {
      OrderFacts();
      NotMember(Order(), endItem);
    }
  }
}
