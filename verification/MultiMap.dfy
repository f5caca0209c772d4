/** The ordered map whose keys may repeat: lookup, plain and hinted insertion, removal. */
module MultiMaps {
  import opened Basics
  import opened AvlShape
  import opened AvlHeap
  import opened AvlCore
  import opened KeyOrder
  import opened KeyedItems

  class MultiMap<V(0)> {
    const core: Core<V>
    ghost var entries: Entries<V>

    ghost function Footprint(): set<object>
      reads this, core
    {
      {this, core, core.avl, core.endItem} + Items(core.tree) + Members(core.free)
    }

    ghost predicate Valid()
      reads this, core, core.avl, core.endItem`prev, Items(core.tree), Members(core.Order()), Members(core.free)`prev
    {
      core.Valid() && Holds(core.Order(), entries) && NonDecreasing(entries)
    }

    constructor ()
      ensures Valid() && entries == [] && fresh(Footprint())
    {
      core := new Core<V>();
      entries := [];
    }

    // ---- lookup ----

    /** A hole that the search for a key may have reached. */
    ghost predicate Seeks(c: Ctx<Item<V>>, t: Tree<Item<V>>, key: int)
      reads this, core
    {
      Plug(c, t) == core.tree && Between(entries, Lo(c), Hi(c, |entries|), key)
    }

    /** The item at the root of the hole's subtree, its entry, and the two ways on. */
    lemma SeekOn(c: Ctx<Item<V>>, t: Tree<Item<V>>, key: int)
      requires Valid() && Seeks(c, t, key) && t.Node?
      ensures At(c, t) < |entries| && t.item.key == entries[At(c, t)].0 && t.item.value == entries[At(c, t)].1
      ensures key > t.item.key ==> Seeks(InRight(t.left, t.item, c), t.right, key)
      ensures key < t.item.key ==> Seeks(InLeft(c, t.item, t.right), t.left, key)
    {
      hide AvlShape.Plug, AvlShape.InOrder, AvlShape.Before, AvlShape.After, Holds, Lo, Hi, At, Core.Valid, NonDecreasing;
      Down(c, t);
      HoldsAt(core.Order(), entries, At(c, t));
    }

    /** What a cell on the way down holds. */
    lemma Visit(c: Ctx<Item<V>>, t: Tree<Item<V>>)
      requires Valid() && Plug(c, t) == core.tree
      ensures core.avl.Load(CellOf(c)) == Root(t)
      ensures t.Node? ==> t.item.left == Root(t.left) && t.item.right == Root(t.right)
      ensures t.Node? ==> t.item in Items(core.tree) && t.item != core.endItem
    {
      hide Avl.Whole, AvlShape.Plug, AvlShape.InOrder, Holds, NonDecreasing, Threaded, Chained, Distinct;
      Look(core.avl, c, t);
      PlugOrder(c, t);
    }

    /** `find`: some item of the key if there is one, otherwise the end item; the way there is no longer than the tree is high. */
    method Find(key: int) returns (it: Item<V>, ghost path: seq<Item<V>>)
      requires Valid()
      ensures if exists i :: 0 <= i < |entries| && entries[i].0 == key
              then it in Items(core.tree) && it != core.endItem && it.key == key
              else it == core.endItem
      ensures Passed(path, core.avl.root, key, if it == core.endItem then null else it)
      ensures |path| + (if it == core.endItem then 0 else 1) <= Height(core.tree) && Valid()
    {
      hide Passed, AvlShape.Plug, AvlShape.InOrder, AvlShape.Items, Valid, Between;
      var item := core.avl.root;
      ghost var c: Ctx<Item<V>>, t := Top, core.tree;
      path := [];
      FromTop(key);
      NothingPassed(core.avl.root, key);
      while item != null
        invariant Valid() && Seeks(c, t, key) && item == Root(t)
        invariant Passed(path, core.avl.root, key, item) && |path| + Height(t) <= Height(core.tree)
        decreases t
      {
        Visit(c, t);
        SeekOn(c, t, key);
        ghost var x := item;
        if key > item.key {
          item := item.right;
          c, t := InRight(t.left, t.item, c), t.right;
        } else if key < item.key {
          item := item.left;
          c, t := InLeft(c, t.item, t.right), t.left;
        } else {
          return item, path;
        }
        PassedOne(path, core.avl.root, key, x);
        path := path + [x];
      }
      Missing(c, key);
      it := core.endItem;
    }

    lemma FromTop(key: int)
      requires Valid()
      ensures Seeks(Top, core.tree, key) && core.avl.root == Root(core.tree)
      ensures Towards(Top, core.tree, key, |entries|)
    {
    }

    /** The key is not there when the search for it ends. */
    lemma Missing(c: Ctx<Item<V>>, key: int)
      requires Valid() && Seeks(c, Leaf, key)
      ensures forall i :: 0 <= i < |entries| ==> entries[i].0 != key
    {
      hide Core.Valid, AvlShape.Plug, AvlShape.InOrder, Between, NonDecreasing;
      Bottom(c, core.endItem);
      NothingBetween(entries, Lo(c), key);
    }

    // ---- insertion ----

    /** A hole that an insertion may descend to, from a hole that ends at index `top`. */
    ghost predicate Towards(c: Ctx<Item<V>>, t: Tree<Item<V>>, key: int, top: nat)
      reads this, core
    {
      Plug(c, t) == core.tree && Near(entries, Lo(c), Hi(c, |entries|), key, top)
    }

    lemma Descend(c: Ctx<Item<V>>, t: Tree<Item<V>>, key: int, top: nat)
      requires Valid() && Towards(c, t, key, top) && t.Node?
      ensures var r := InRight(t.left, t.item, c); key >= t.item.key ==> Towards(r, t.right, key, top) && Lo(r) >= Lo(c)
      ensures var l := InLeft(c, t.item, t.right); key < t.item.key ==> Towards(l, t.left, key, top) && Lo(l) >= Lo(c)
    {
      hide AvlShape.Plug, AvlShape.InOrder, AvlShape.Before, AvlShape.After, Holds, Lo, Hi, At, Core.Valid, NonDecreasing;
      Down(c, t);
      HoldsAt(core.Order(), entries, At(c, t));
    }

    /** Where the descent ended. */
    lemma Gap(c: Ctx<Item<V>>, key: int, top: nat)
      requires Valid() && Towards(c, Leaf, key, top)
      ensures Plug(c, Leaf) == core.tree && |core.Order()| == |entries|
      ensures Fits(entries, Lo(c), key) && Lo(c) == PlaceUpTo(entries, key, top)
    {
      hide Core.Valid, AvlShape.Plug, AvlShape.InOrder, UpperBound, PlaceUpTo;
      Bottom(c, core.endItem);
      PlaceAt(entries, Lo(c), key, top);
    }

    /** A new item, where the descent for its key ended. */
    method Add(cell: Cell<V>, parent: Item?<V>, key: int, value: V, ghost c: Ctx<Item<V>>, ghost top: nat) returns (it: Item<V>)
      requires Valid() && Towards(c, Leaf, key, top) && cell == CellOf(c) && parent == Parent(c)
      modifies Footprint()
      ensures Valid() && it.key == key && it.value == value && Items(core.tree) == old(Items(core.tree)) + {it}
      ensures Lo(c) <= |old(core.Order())| == |old(entries)| && Fits(old(entries), Lo(c), key)
      ensures core.Order() == old(core.Order())[..Lo(c)] + [it] + old(core.Order())[Lo(c)..]
      ensures entries == With(old(entries), Lo(c), key, value)
      ensures Lo(c) == PlaceUpTo(old(entries), key, top)
      ensures fresh(Footprint() - old(Footprint()))
    {
      hide AvlShape.Plug, AvlShape.InOrder, AvlShape.Items, AvlShape.Before, AvlShape.After, Towards, Core.Valid, Holds;
      hide NonDecreasing, PlaceUpTo, Lo;
      ghost var s, k := core.Order(), Lo(c);
      Gap(c, key, top);
      core.OrderFacts();
      core.EndApart();
      assert allocated(Items(core.tree)) && allocated(Members(core.free)) && allocated(Members(s));
      it := core.Attach(cell, parent, key, value, c);
      Bottom(c, it);
      HoldsWith(s, entries, k, it);
      WithNonDecreasing(entries, k, key, value);
      entries := With(entries, k, key, value);
    }

    /**
     Insertion from a cell on the way to a place for the key. The new item is at index `i`: after every
     item whose key is not larger, but not behind the hole that the descent began at.
     */
    method InsertAt(cell0: Cell<V>, parent0: Item?<V>, key: int, value: V,
                    ghost c0: Ctx<Item<V>>, ghost t0: Tree<Item<V>>, ghost top: nat)
      returns (it: Item<V>, ghost i: nat)
      requires Valid() && Towards(c0, t0, key, top) && cell0 == CellOf(c0) && parent0 == Parent(c0)
      modifies Footprint()
      ensures Valid() && it.key == key && it.value == value && Items(core.tree) == old(Items(core.tree)) + {it}
      ensures Lo(c0) <= i <= |old(core.Order())| == |old(entries)| && Fits(old(entries), i, key)
      ensures core.Order() == old(core.Order())[..i] + [it] + old(core.Order())[i..]
      ensures entries == With(old(entries), i, key, value)
      ensures i == PlaceUpTo(old(entries), key, top)
      ensures fresh(Footprint() - old(Footprint()))
    {
      hide Valid, AvlShape.Plug, AvlShape.InOrder, AvlShape.Items, PlaceUpTo, Near, With;
      var cell, parent := cell0, parent0;
      ghost var c, t := c0, t0;
      Visit(c, t);
      var position := core.avl.Load(cell);
      while position != null
        invariant Valid() && Towards(c, t, key, top) && position == Root(t) && cell == CellOf(c) && parent == Parent(c)
        invariant Lo(c0) <= Lo(c)
        modifies {}
        decreases t
      {
        Visit(c, t);
        Descend(c, t, key, top);
        if key < position.key {
          cell, parent := AtLeft(position), position;
          c, t := InLeft(c, position, t.right), t.left;
        } else {
          cell, parent := AtRight(position), position;
          c, t := InRight(t.left, position, c), t.right;
        }
        Visit(c, t);
        position := core.avl.Load(cell);
      }
      it := Add(cell, parent, key, value, c, top);
      i := Lo(c);
    }

    /** Plain insertion: after every item with the same key. */
    method Insert(key: int, value: V) returns (it: Item<V>)
      requires Valid()
      modifies Footprint()
      ensures Valid() && it.key == key && it.value == value && Items(core.tree) == old(Items(core.tree)) + {it}
      ensures entries == With(old(entries), UpperBound(old(entries), key), key, value)
      ensures var s, i := old(core.Order()), UpperBound(old(entries), key);
              i <= |s| && core.Order() == s[..i] + [it] + s[i..]
      ensures fresh(Footprint() - old(Footprint()))
    {
      hide Valid, AvlShape.Plug, AvlShape.InOrder, AvlShape.Items, UpperBound, Near, With;
      ghost var i;
      FromTop(key);
      it, i := InsertAt(AtRoot, null, key, value, Top, core.tree, |entries|);
    }

    /** The cell right (left) of an item lies on the way to a key between the item and its neighbour. */
    lemma RightOf(c: Ctx<Item<V>>, t: Tree<Item<V>>, key: int)
      requires Valid() && Plug(c, t) == core.tree && t.Node? && At(c, t) < |entries|
      requires var k := At(c, t); entries[k].0 <= key && (k + 1 < |entries| ==> key <= entries[k + 1].0)
      ensures At(c, t) + 1 + |InOrder(t.right)| <= |entries|
      ensures Towards(InRight(t.left, t.item, c), t.right, key, At(c, t) + 1 + |InOrder(t.right)|)
      ensures Lo(InRight(t.left, t.item, c)) == At(c, t) + 1
    {
      hide AvlShape.Plug, AvlShape.InOrder, AvlShape.Before, AvlShape.After, Core.Valid;
      Down(c, t);
      PlugOrder(c, t);
      SubtreeSize(t);
    }

    static lemma SubtreeSize(t: Tree<Item<V>>)
      requires t.Node?
      ensures |InOrder(t)| == |InOrder(t.left)| + 1 + |InOrder(t.right)|
    {
    }

    lemma LeftOf(c: Ctx<Item<V>>, t: Tree<Item<V>>, key: int)
      requires Valid() && Plug(c, t) == core.tree && t.Node? && At(c, t) < |entries|
      requires var k := At(c, t); key < entries[k].0 && (k > 0 ==> entries[k - 1].0 <= key)
      ensures Towards(InLeft(c, t.item, t.right), t.left, key, At(c, t)) && PlaceUpTo(entries, key, At(c, t)) == UpperBound(entries, key)
    {
      hide AvlShape.Plug, AvlShape.InOrder, AvlShape.Before, AvlShape.After, Core.Valid;
      Down(c, t);
      UpperBoundAt(entries, At(c, t), key);
    }

    /** The key is not below the hint's and not above the next item's, so that the item goes into the hint's right subtree. */
    ghost predicate GoesRight(position: Item<V>, key: int)
      reads this, core, position, position.next
    {
      && position != core.endItem && key >= position.key
      && (position.next == core.endItem || (position.next != null && key <= position.next.key))
    }

    /**
     Insertion near a position, which may be any item or the end. It goes where a plain insertion
     would, except that the right subtree of the hint bounds it when it goes there.
     */
    method InsertNear(position: Item<V>, key: int, value: V) returns (it: Item<V>, ghost i: nat)
      requires Valid() && (position == core.endItem || position in Items(core.tree))
      modifies Footprint()
      ensures Valid() && it.key == key && it.value == value && Items(core.tree) == old(Items(core.tree)) + {it}
      ensures i <= |old(core.Order())| == |old(entries)| && Fits(old(entries), i, key)
      ensures core.Order() == old(core.Order())[..i] + [it] + old(core.Order())[i..]
      ensures entries == With(old(entries), i, key, value)
      ensures i == if old(position != core.endItem && GoesRight(position, key)) then PlaceUpTo(old(entries), key, old(Behind(core.tree, position)))
                   else UpperBound(old(entries), key)
      ensures fresh(Footprint() - old(Footprint()))
    {
      hide Core.Valid, Holds, NonDecreasing, Towards, AvlShape.Items, AvlShape.Plug, AvlShape.InOrder, At, Lo, UpperBound, With, Footprint;
      ghost var c, t, k;
      UpToAll(entries, key);
      if position == core.endItem {
        var prev := position.prev;
        if prev != null && key > prev.key {
          LastItem(core, entries);
          c, t, k := Locate(core, entries, prev);
          RightOf(c, t, key);
          AtEnd(c, t, key);
          it, i := InsertAt(AtRight(prev), prev, key, value, InRight(t.left, prev, c), t.right, k + 1 + |InOrder(t.right)|);
          return;
        }
      } else {
        c, t, k := Locate(core, entries, position);
        if key < position.key {
          var prev := position.prev;
          if prev == null || key >= prev.key {
            LeftOf(c, t, key);
            it, i := InsertAt(AtLeft(position), position, key, value, InLeft(c, position, t.right), t.left, k);
            return;
          }
        } else {
          var next := position.next;
          if next == core.endItem || key <= next.key {
            RightOf(c, t, key);
            it, i := InsertAt(AtRight(position), position, key, value, InRight(t.left, position, c), t.right, k + 1 + |InOrder(t.right)|);
            return;
          }
        }
      }
      FromTop(key);
      it, i := InsertAt(AtRoot, null, key, value, Top, core.tree, |entries|);
    }

    /** A map of three items with one key. */
    lemma OfThree()
      requires Valid() && |entries| == 3 && entries[0].0 == entries[1].0 == entries[2].0
      ensures core.begin in Items(core.tree) && Behind(core.tree, core.begin) == 1
      ensures GoesRight(core.begin, entries[0].0) && core.begin != core.endItem
    {
      hide AvlShape.InOrder, AvlShape.Items, Behind, Chained;
      core.OrderFacts();
      core.EndApart();
      FirstOfThree(core.tree, core.begin);
      assert core.Order()[0].next == NextAt(core.Order(), 0, core.endItem);
    }

    static lemma UpToAll(e: Entries<V>, key: int)
      ensures PlaceUpTo(e, key, |e|) == UpperBound(e, key)
    {
    }

    /** Behind the last item there is no item. */
    lemma AtEnd(c: Ctx<Item<V>>, t: Tree<Item<V>>, key: int)
      requires Valid() && Plug(c, t) == core.tree && t.Node? && At(c, t) + 1 == |entries|
      ensures At(c, t) + 1 + |InOrder(t.right)| == |entries|
    {
      hide AvlShape.Plug, AvlShape.InOrder, AvlShape.Before, AvlShape.After;
      PlugOrder(c, t);
      SubtreeSize(t);
    }

    // ---- removal ----

    /** `remove` of a position: exactly that item goes. Returns the position after it. */
    method RemoveAt(it: Item<V>) returns (next: Item<V>, ghost k: nat)
      requires Valid() && it in Items(core.tree)
      modifies Footprint()
      ensures Valid() && Items(core.tree) == old(Items(core.tree)) - {it} && Footprint() == old(Footprint())
      ensures var s := old(core.Order());
              && k < |s| == |old(entries)| && s[k] == it && old(entries)[k].0 == old(it.key)
              && core.Order() == s[..k] + s[k + 1..]
              && entries == Without(old(entries), k) && next == NextAt(s, k, core.endItem)
    {
      hide Core.Valid, Holds, NonDecreasing, AvlShape.Items, AvlShape.InOrder, Gone, Members;
      ghost var s, e, was := core.Order(), entries, core.free;
      core.OrderFacts();
      assert allocated(Items(core.tree)) && allocated(Members(s));
      next := core.Remove(it);
      k := GoneAt(s, it, core.Order(), next, core.endItem);
      HoldsAt(s, e, k);
      HoldsWithout(s, e, k);
      WithoutNonDecreasing(e, k);
      entries := Without(e, k);
      ConsMembers(it, was);
      core.OrderFacts();
    }

    /** `remove` of a key: one item of the key goes, if there is one. */
    method Remove(key: int)
      requires Valid()
      modifies Footprint()
      ensures Valid() && Footprint() == old(Footprint())
      ensures if exists i :: 0 <= i < |old(entries)| && old(entries)[i].0 == key
              then exists k :: 0 <= k < |old(entries)| && old(entries)[k].0 == key && entries == Without(old(entries), k)
              else entries == old(entries)
    {
      hide Valid, AvlShape.Items;
      var it, _ := Find(key);
      if it != core.endItem {
        ghost var next, k := RemoveAt(it);
      }
    }

    method Clear()
      requires Valid()
      modifies Footprint()
      ensures Valid() && entries == [] && core.Order() == [] && Footprint() == old(Footprint())
    {
      core.OrderFacts();
      core.Clear();
      entries := [];
    }

    /** A lookup takes logarithmically many steps here as well. */
    lemma LookupIsLogarithmic()
      requires Valid()
      ensures core.size == |entries|
      ensures core.size >= Fib(Height(core.tree) + 2) - 1
      ensures Pow2(Height(core.tree) / 2) <= core.size + 1
    {
      hide NonDecreasing, Fib, Pow2, AvlShape.Height, AvlShape.InOrder, Threaded, Chained, Distinct;
      HeightNeedsItems(core.tree);
      LogarithmicHeight(core.tree);
    }
  }

  /** A balanced tree of three items has the middle one at its root. */
  lemma ThreeItems<X>(t: Tree<X>)
    requires Balanced(t) && |InOrder(t)| == 3
    ensures t.Node? && t.left.Node? && t.right.Node? && t.left.left.Leaf? && t.left.right.Leaf?
    ensures InOrder(t)[0] == t.left.item && InOrder(t)[1] == t.item
  {
    SmallTree(t.left);
    SmallTree(t.right);
  }

  lemma SmallTree<X>(t: Tree<X>)
    requires Balanced(t)
    ensures |InOrder(t)| == 0 <==> t.Leaf?
    ensures |InOrder(t)| == 1 ==> t.Node? && t.left.Leaf? && t.right.Leaf?
    ensures |InOrder(t)| == 2 ==> Height(t) == 2
  {
  }

  /** Its first item has no right subtree. */
  lemma FirstOfThree<V(0)>(t: Tree<Item<V>>, a: Item<V>)
    requires Balanced(t) && |InOrder(t)| == 3 && InOrder(t)[0] == a && Distinct(InOrder(t))
    ensures a in Items(t) && Behind(t, a) == 1
  {
    ThreeItems(t);
    assert t.item != a && a in Items(t.left);
    var c := InLeft(Top, t.item, t.right);
    assert Focus(t.left, a, c) == (c, t.left);
    assert Focus(t, a, Top) == (c, t.left);
    assert Before(c) == Before<Item<V>>(Top) == [] && InOrder(t.left.left) == [] && InOrder(t.left.right) == [];
  }

  /**
   A hint may place an item before others with the same key: three items are inserted with one key,
   so that balance makes the middle one the root; the first item as the hint then leads to index 1.
   */
  method HintBeforeEquals() returns (m: MultiMap<int>)
    ensures m.Valid() && m.entries == [(7, 1), (7, 4), (7, 2), (7, 3)]
  {
    hide MultiMap.Valid, MultiMap.Footprint, UpperBound, With, Behind, AvlShape.Items;
    m := new MultiMap<int>();
    PlainPlaces();
    var a := m.Insert(7, 1);
    assert m.entries == [(7, 1)];
    var b := m.Insert(7, 2);
    assert m.entries == [(7, 1), (7, 2)];
    var c := m.Insert(7, 3);
    assert m.entries == [(7, 1), (7, 2), (7, 3)];
    m.OfThree();
    var first := m.core.begin;
    ghost var i;
    var d;
    d, i := m.InsertNear(first, 7, 4);
  }

  lemma PlainPlaces()
    ensures UpperBound<int>([], 7) == 0 && With<int>([], 0, 7, 1) == [(7, 1)]
    ensures UpperBound([(7, 1)], 7) == 1 && With([(7, 1)], 1, 7, 2) == [(7, 1), (7, 2)]
    ensures UpperBound([(7, 1), (7, 2)], 7) == 2 && With([(7, 1), (7, 2)], 2, 7, 3) == [(7, 1), (7, 2), (7, 3)]
    ensures UpperBound([(7, 1), (7, 2), (7, 3)], 7) == 3
    ensures With([(7, 1), (7, 2), (7, 3)], 1, 7, 4) == [(7, 1), (7, 4), (7, 2), (7, 3)]
  {
    UpperBoundAt<int>([], 0, 7);
    UpperBoundAt([(7, 1)], 1, 7);
    UpperBoundAt([(7, 1), (7, 2)], 2, 7);
    UpperBoundAt([(7, 1), (7, 2), (7, 3)], 3, 7);
  }
}
