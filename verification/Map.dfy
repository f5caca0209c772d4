/** The ordered map: lookup, plain and hinted insertion, merging, removal. */
module Maps {
  import opened Basics
  import opened AvlShape
  import opened AvlHeap
  import opened AvlCore
  import opened KeyOrder
  import opened KeyedItems

  class Map<V(0)> {
    const core: Core<V>
    ghost var entries: Entries<V>

    ghost function Footprint(): set<object>
      reads this, core
    {
      {this, core, core.avl, core.endItem} + Items(core.tree) + Members(core.free)
    }

    ghost predicate Valid()
      reads this, core, core.avl, core.endItem`prev, Items(core.tree), Members(core.Order()), Members(core.free)`prev
    {
      core.Valid() && Holds(core.Order(), entries) && Ascending(entries)
    }

    constructor ()
      ensures Valid() && entries == [] && fresh(Footprint())
    {
      core := new Core<V>();
      entries := [];
    }

    // ---- descending ----

    /** A hole that the descent for a key may have reached. */
    ghost predicate Towards(c: Ctx<Item<V>>, t: Tree<Item<V>>, key: int)
      reads this, core
    {
      Plug(c, t) == core.tree && Between(entries, Lo(c), Hi(c, |entries|), key)
    }

    /** The item at the root of the hole's subtree, its entry, and the two ways on. */
    lemma Descend(c: Ctx<Item<V>>, t: Tree<Item<V>>, key: int)
      requires Valid() && Towards(c, t, key) && t.Node?
      ensures var k := At(c, t);
              && |core.Order()| == |entries| && k < |entries| && core.Order()[k] == t.item && t.item.key == entries[k].0
              && entries[k].0 in ToMap(entries) && ToMap(entries)[entries[k].0] == t.item.value
              && (key > t.item.key ==> Towards(InRight(t.left, t.item, c), t.right, key))
              && (key < t.item.key ==> Towards(InLeft(c, t.item, t.right), t.left, key))
    {
      hide AvlShape.Plug, AvlShape.InOrder, AvlShape.Before, AvlShape.After, Holds, Lo, Hi, At, Core.Valid, Ascending, ToMap;
      Down(c, t);
      HoldsAt(core.Order(), entries, At(c, t));
      MapAt(entries, At(c, t));
    }

    /** What a cell on the way down holds. */
    lemma Visit(c: Ctx<Item<V>>, t: Tree<Item<V>>, key: int)
      requires Valid() && Towards(c, t, key)
      ensures core.avl.Load(CellOf(c)) == Root(t)
      ensures t.Node? ==> t.item.left == Root(t.left) && t.item.right == Root(t.right) && t.item in Items(core.tree)
      ensures t.Node? ==> t.item != core.endItem
    {
      hide Avl.Whole, AvlShape.Plug, AvlShape.InOrder, Holds, Ascending, Threaded, Chained, Distinct;
      Look(core.avl, c, t);
      PlugOrder(c, t);
    }

    // ---- lookup ----

    /**
     `find`: the item of the key, or the end item. The items on the way there, each the child of the
     one before it on the side of the key, are at most as many as the tree is high.
     */
    method Find(key: int) returns (it: Item<V>, ghost path: seq<Item<V>>)
      requires Valid()
      ensures if key in ToMap(entries) then it in Items(core.tree) && it != core.endItem && it.key == key && it.value == ToMap(entries)[key]
              else it == core.endItem
      ensures Passed(path, core.avl.root, key, if it == core.endItem then null else it)
      ensures |path| + (if it == core.endItem then 0 else 1) <= Height(core.tree) && Valid()
    {
      hide Passed, AvlShape.Plug, AvlShape.InOrder, AvlShape.Items, Towards, Valid, ToMap;
      var item := core.avl.root;
      ghost var c: Ctx<Item<V>>, t := Top, core.tree;
      path := [];
      FromTop(key);
      NothingPassed(core.avl.root, key);
      while item != null
        invariant Valid() && Towards(c, t, key) && item == Root(t)
        invariant Passed(path, core.avl.root, key, item) && |path| + Height(t) <= Height(core.tree)
        decreases t
      {
        Visit(c, t, key);
        Descend(c, t, key);
        ghost var x := item;
        if key > item.key {
          item := item.right;
          c, t := InRight(t.left, t.item, c), t.right;
        } else if key < item.key {
          item := item.left;
          c, t := InLeft(c, t.item, t.right), t.left;
        } else {
          return item, path;
        }
        PassedOne(path, core.avl.root, key, x);
        path := path + [x];
      }
      Missing(c, key);
      it := core.endItem;
    }

    lemma FromTop(key: int)
      requires Valid()
      ensures Towards(Top, core.tree, key) && core.avl.root == Root(core.tree)
    {
    }

    /** The key is not there when the descent for it ends. */
    lemma Missing(c: Ctx<Item<V>>, key: int)
      requires Valid() && Towards(c, Leaf, key)
      ensures key !in ToMap(entries) && |entries| == |core.Order()| && Lo(c) == Hi(c, |entries|)
    {
      Bottom(c, core.endItem);
      MapKeys(entries, key);
    }

    // ---- insertion ----

    /** An existing item gets a new value. */
    method Assign(it: Item<V>, key: int, value: V, ghost c: Ctx<Item<V>>, ghost t: Tree<Item<V>>)
      requires Valid() && Towards(c, t, key) && t.Node? && it == t.item && it.key == key
      modifies this`entries, it`value
      ensures Valid() && entries == Put(old(entries), key, value) && it.value == value && it in Items(core.tree)
      ensures core.Order() == old(core.Order())
    {
      hide AvlShape.Plug, AvlShape.InOrder, AvlShape.Items, Towards, ToMap, Core.Valid, Holds, Ascending, Put;
      ghost var s, k := core.Order(), At(c, t);
      Descend(c, t, key);
      Visit(c, t, key);
      core.OrderFacts();
      assert allocated(core) && allocated(core.avl) && allocated(core.endItem) && allocated(Items(core.tree)) && allocated(Members(core.free)) && allocated(Members(s));
      it.value := value;
      assert core.Valid();
      PutReplaces(entries, k, key, value);
      PutAscending(entries, key, value);
      HoldsUpdate((s, entries, k));
      entries := Put(entries, key, value);
    }

    /** A new item, where the descent for its key ended. */
    method Add(cell: Cell<V>, parent: Item?<V>, key: int, value: V, ghost c: Ctx<Item<V>>) returns (it: Item<V>)
      requires Valid() && Towards(c, Leaf, key) && cell == CellOf(c) && parent == Parent(c)
      modifies Footprint()
      ensures Valid() && entries == Put(old(entries), key, value)
      ensures it.key == key && it.value == value && Items(core.tree) == old(Items(core.tree)) + {it}
      ensures |entries| == |old(entries)| ==> core.Order() == old(core.Order())
      ensures fresh(Footprint() - old(Footprint()))
    {
      hide AvlShape.Plug, AvlShape.InOrder, AvlShape.Items, AvlShape.Before, AvlShape.After, Towards, ToMap, Core.Valid, Holds, Ascending, Put, Lo;
      ghost var s, k := core.Order(), Lo(c);
      Gap(c, key);
      core.OrderFacts();
      core.EndApart();
      assert allocated(Items(core.tree)) && allocated(Members(core.free)) && allocated(Members(s));
      it := core.Attach(cell, parent, key, value, c);
      Bottom(c, it);
      HoldsWith(s, entries, k, it);
      PutInserts(entries, k, key, value);
      PutAscending(entries, key, value);
      entries := Put(entries, key, value);
    }

    lemma Gap(c: Ctx<Item<V>>, key: int)
      requires Valid() && Towards(c, Leaf, key)
      ensures Between(entries, Lo(c), Lo(c), key) && Plug(c, Leaf) == core.tree
    {
      Missing(c, key);
    }

    /** Insertion from a cell on the way to the key: descends to an empty cell or to the key. */
    method InsertAt(cell0: Cell<V>, parent0: Item?<V>, key: int, value: V, ghost c0: Ctx<Item<V>>, ghost t0: Tree<Item<V>>)
      returns (it: Item<V>)
      requires Valid() && Towards(c0, t0, key) && cell0 == CellOf(c0) && parent0 == Parent(c0)
      modifies Footprint()
      ensures Valid() && entries == Put(old(entries), key, value)
      ensures it.key == key && it.value == value && Items(core.tree) == old(Items(core.tree)) + {it}
      ensures |entries| == |old(entries)| ==> core.Order() == old(core.Order())
      ensures fresh(Footprint() - old(Footprint()))
    {
      hide Towards, Valid, AvlShape.Plug, AvlShape.InOrder, AvlShape.Items, ToMap, Put;
      var cell, parent := cell0, parent0;
      ghost var c, t := c0, t0;
      Visit(c, t, key);
      var position := core.avl.Load(cell);
      while position != null
        invariant Valid() && Towards(c, t, key) && position == Root(t) && cell == CellOf(c) && parent == Parent(c)
        modifies {}
        decreases t
      {
        Visit(c, t, key);
        Descend(c, t, key);
        if key > position.key {
          cell, parent := AtRight(position), position;
          c, t := InRight(t.left, position, c), t.right;
        } else if key < position.key {
          cell, parent := AtLeft(position), position;
          c, t := InLeft(c, position, t.right), t.left;
        } else {
          break;
        }
        Visit(c, t, key);
        position := core.avl.Load(cell);
      }
      if position == null {
        it := Add(cell, parent, key, value, c);
      } else {
        Visit(c, t, key);
        Assign(position, key, value, c, t);
        it := position;
      }
    }

    method Insert(key: int, value: V) returns (it: Item<V>)
      requires Valid()
      modifies Footprint()
      ensures Valid() && entries == Put(old(entries), key, value)
      ensures it.key == key && it.value == value && Items(core.tree) == old(Items(core.tree)) + {it}
      ensures |entries| == |old(entries)| ==> core.Order() == old(core.Order())
      ensures fresh(Footprint() - old(Footprint()))
    {
      FromTop(key);
      it := InsertAt(AtRoot, null, key, value, Top, core.tree);
    }

    /** The cell right (left) of an item lies on the way to a key between the item and its neighbour. */
    lemma RightOf(c: Ctx<Item<V>>, t: Tree<Item<V>>, key: int)
      requires Valid() && Plug(c, t) == core.tree && t.Node? && At(c, t) < |entries|
      requires var k := At(c, t); entries[k].0 < key && (k + 1 < |entries| ==> key < entries[k + 1].0)
      ensures Towards(InRight(t.left, t.item, c), t.right, key)
    {
      hide AvlShape.Plug, AvlShape.InOrder, AvlShape.Before, AvlShape.After, Core.Valid;
      Down(c, t);
    }

    lemma LeftOf(c: Ctx<Item<V>>, t: Tree<Item<V>>, key: int)
      requires Valid() && Plug(c, t) == core.tree && t.Node? && At(c, t) < |entries|
      requires var k := At(c, t); key < entries[k].0 && (k > 0 ==> entries[k - 1].0 < key)
      ensures Towards(InLeft(c, t.item, t.right), t.left, key)
    {
      hide AvlShape.Plug, AvlShape.InOrder, AvlShape.Before, AvlShape.After, Core.Valid;
      Down(c, t);
    }

    /** So does the item itself, to its own key. */
    lemma Onto(c: Ctx<Item<V>>, t: Tree<Item<V>>, key: int)
      requires Valid() && Plug(c, t) == core.tree && t.Node? && At(c, t) < |entries| && entries[At(c, t)].0 == key
      ensures Towards(c, t, key)
    {
      hide AvlShape.Plug, AvlShape.InOrder, AvlShape.Before, AvlShape.After, Core.Valid;
      Down(c, t);
    }

    /** Insertion near a position, which may be any item or the end. */
    method InsertNear(position: Item<V>, key: int, value: V) returns (it: Item<V>)
      requires Valid() && (position == core.endItem || position in Items(core.tree))
      modifies Footprint()
      ensures Valid() && entries == Put(old(entries), key, value)
      ensures it.key == key && it.value == value && Items(core.tree) == old(Items(core.tree)) + {it}
      ensures |entries| == |old(entries)| ==> core.Order() == old(core.Order())
      ensures fresh(Footprint() - old(Footprint()))
    {
      hide Core.Valid, Holds, Ascending, Towards, Put, AvlShape.Items, AvlShape.Plug, AvlShape.InOrder, At;
      ghost var c, t, k;
      if position == core.endItem {
        var prev := position.prev;
        if prev != null && key > prev.key {
          LastItem(core, entries);
          c, t, k := Locate(core, entries, prev);
          RightOf(c, t, key);
          it := InsertAt(AtRight(prev), prev, key, value, InRight(t.left, prev, c), t.right);
          return;
        }
      } else {
        c, t, k := Locate(core, entries, position);
        if key < position.key {
          var prev := position.prev;
          if prev == null || key > prev.key {
            LeftOf(c, t, key);
            it := InsertAt(AtLeft(position), position, key, value, InLeft(c, position, t.right), t.left);
            return;
          }
        } else if key > position.key {
          var next := position.next;
          if next == core.endItem || key < next.key {
            RightOf(c, t, key);
            it := InsertAt(AtRight(position), position, key, value, InRight(t.left, position, c), t.right);
            return;
          }
        } else {
          Onto(c, t, key);
          Assign(position, key, value, c, t);
          it := position;
          return;
        }
      }
      it := Insert(key, value);
    }

    // ---- merging ----

    /** The item at index `k` of the list, or its end. */
    ghost predicate Cursor(i: Item<V>, k: nat)
      reads this, core
    {
      k <= |core.Order()| && i == if k == |core.Order()| then core.endItem else core.Order()[k]
    }

    lemma CursorStart()
      requires Valid()
      ensures Cursor(core.begin, 0) && (core.avl.root == null <==> entries == [])
    {
      hide Chained, Distinct, Ascending;
      assert core.tree.Node? ==> core.Order() != [];
    }

    lemma CursorAt(i: Item<V>, k: nat)
      requires Valid() && Cursor(i, k)
      ensures k <= |entries| && (i == core.endItem <==> k == |entries|)
      ensures k < |entries| ==> i.key == entries[k].0 && i.value == entries[k].1 && i.next != null && Cursor(i.next, k + 1)
      ensures k < |entries| ==> {this, core, i} <= Footprint() && k < |core.Order()| && i == core.Order()[k]
    {
      hide AvlShape.InOrder, AvlShape.Items, Avl.Whole, Chained, Ascending;
      core.EndApart();
      var s := core.Order();
      core.OrderFacts();
      if k < |s| { assert s[k].next == NextAt(s, k, core.endItem) && s[k] in Members(s); }
    }

    /** A map none of whose objects change stays as it is. */
    twostate lemma Untouched(reach: set<object>)
      requires old(Valid()) && old(Members(core.Order()) <= Items(core.tree)) && reach == old(Footprint())
      requires unchanged(reach)
      ensures Valid() && entries == old(entries) && Footprint() == reach && core.tree == old(core.tree)
    {
      hide Core.Valid, Holds, Ascending, AvlShape.Items, AvlShape.InOrder, Members;
      assert unchanged(this) && unchanged(core) && unchanged(core.avl) && unchanged(core.endItem);
      assert core.tree == old(core.tree) && core.free == old(core.free);
      assert unchanged(Items(core.tree)) && unchanged(Members(core.free)) && unchanged(Members(core.Order()));
      assert core.Valid();
      assert Holds(core.Order(), entries);
    }

    lemma OrderInItems()
      requires Valid()
      ensures Members(core.Order()) == Items(core.tree)
    {
      core.OrderFacts();
    }

    /** Two maps are one, or share nothing. */
    ghost predicate Apart(other: Map<V>)
      reads this, core, other, other.core
    {
      other == this || Footprint() !! other.Footprint()
    }

    /** One entry of the other map, inserted near the one before it. */
    method MergeNext(other: Map<V>, hint: Item<V>, i: Item<V>, ghost k: nat, ghost before: Entries<V>) returns (it: Item<V>)
      requires Valid() && other.Valid() && Apart(other) && (other == this ==> before == entries)
      requires hint in Items(core.tree) && k < |other.entries| && other.Cursor(i, k)
      requires entries == PutAll(before, other.entries[..k])
      modifies Footprint()
      ensures Valid() && other.Valid() && Apart(other) && it in Items(core.tree)
      ensures other.entries == old(other.entries) && other.Cursor(i, k)
      ensures entries == PutAll(before, other.entries[..k + 1])
      ensures fresh(Footprint() - old(Footprint()))
    {
      hide Valid, Cursor, Put, PutAll, Footprint;
      ghost var e, order, reach := other.entries, other.core.Order(), other.Footprint();
      other.CursorAt(i, k);
      other.OrderInItems();
      other.KeysAscend();
      PutAllStep(before, e, k);
      PutAllSelf(e, k);
      PutAllSelf(e, k + 1);
      it := InsertNear(hint, i.key, i.value);
      if other == this { SameCursor(order, i, k); } else { other.Untouched(reach); }
    }

    /** The first entry of the other map. */
    method MergeFirst(other: Map<V>, i: Item<V>) returns (it: Item<V>)
      requires Valid() && other.Valid() && Apart(other) && other.entries != [] && other.Cursor(i, 0)
      modifies Footprint()
      ensures Valid() && other.Valid() && Apart(other) && it in Items(core.tree)
      ensures other.entries == old(other.entries) && other.Cursor(i, 0)
      ensures entries == PutAll(old(entries), other.entries[..1])
      ensures fresh(Footprint() - old(Footprint()))
    {
      hide Valid, Cursor, Put, PutAll, Footprint;
      ghost var before, e, order, reach := entries, other.entries, other.core.Order(), other.Footprint();
      other.CursorAt(i, 0);
      other.OrderInItems();
      other.KeysAscend();
      assert e[..0] == [];
      PutAllNothing(before);
      PutAllStep(before, e, 0);
      PutAllSelf(e, 1);
      it := Insert(i.key, i.value);
      if other == this { SameCursor(order, i, 0); } else { other.Untouched(reach); }
    }

    /** `insert(other)`: the result of each insertion is the hint for the next one. A map may be merged into itself. */
    method InsertAll(other: Map<V>)
      requires Valid() && other.Valid() && Apart(other)
      modifies Footprint()
      ensures Valid() && entries == PutAll(old(entries), other.entries)
      ensures other.Valid() && other.entries == old(other.entries)
      ensures fresh(Footprint() - old(Footprint()))
    {
      hide Valid, Cursor, Put, PutAll, Footprint;
      ghost var before, e := entries, other.entries;
      other.CursorStart();
      other.KeysAscend();
      PutAllNothing(before);
      if other.core.avl.root != null {
        var i: Item<V> := other.core.begin;
        var it := MergeFirst(other, i);
        other.CursorAt(i, 0);
        PutAllSelf(e, 1);
        i := i.next;
        ghost var k := 1;
        while i != other.core.endItem
          invariant Valid() && other.Valid() && Apart(other) && it in Items(core.tree)
          invariant k <= |e| && other.entries == e && other.Cursor(i, k)
          invariant entries == PutAll(before, e[..k]) && (other == this ==> entries == before)
          invariant fresh(Footprint() - old(Footprint()))
          decreases |e| - k
        {
          other.CursorAt(i, k);
          PutAllSelf(e, k + 1);
          ghost var mine := Footprint();
          label Next:
          it := MergeNext(other, it, i, k, before);
          forall x | x in Footprint() && x !in old(Footprint()) ensures !old(allocated(x)) {
            assert x in mine || !old@Next(allocated(x));
          }
          other.CursorAt(i, k);
          i := i.next;
          k := k + 1;
        }
        other.CursorAt(i, k);
        assert e[..k] == e;
      }
    }

    lemma KeysAscend()
      requires Valid()
      ensures Ascending(entries)
    {
    }

    lemma SameCursor(order: seq<Item<V>>, i: Item<V>, k: nat)
      requires core.Order() == order && k < |order| && i == order[k]
      ensures Cursor(i, k)
    {
    }

    /** Merging entries into themselves changes nothing. */
    static lemma {:induction false} PutAllSelf(e: Entries<V>, k: nat)
      requires Ascending(e) && k <= |e|
      ensures PutAll(e, e[..k]) == e
    {
      if k == 0 {
        PutAllNothing(e);
      } else {
        PutAllSelf(e, k - 1);
        PutAllStep(e, e, k - 1);
        PutReplaces(e, k - 1, e[k - 1].0, e[k - 1].1);
      }
    }

    static lemma PutAllNothing(e: Entries<V>)
      ensures PutAll(e, []) == e
    {
    }

    static lemma PutAllStep(e: Entries<V>, f: Entries<V>, k: nat)
      requires k < |f|
      ensures PutAll(e, f[..k + 1]) == Put(PutAll(e, f[..k]), f[k].0, f[k].1)
    {
      assert f[..k + 1][..k] == f[..k];
    }

    // ---- removal ----

    /** `remove` of a position: returns the position after it. */
    method RemoveAt(it: Item<V>) returns (next: Item<V>)
      requires Valid() && it in Items(core.tree)
      modifies Footprint()
      ensures Valid() && entries == Del(old(entries), old(it.key))
      ensures Items(core.tree) == old(Items(core.tree)) - {it} && Footprint() == old(Footprint())
      ensures Gone(old(core.Order()), it, core.Order(), next, core.endItem)
      ensures next == core.endItem || next in Items(core.tree)
    {
      hide Core.Valid, Holds, Ascending, Del, AvlShape.Items, AvlShape.InOrder, Gone, Members;
      ghost var s, e, was := core.Order(), entries, core.free;
      OrderInItems();
      assert allocated(Items(core.tree)) && allocated(Members(s));
      next := core.Remove(it);
      ghost var k := GoneAt(s, it, core.Order(), next, core.endItem);
      HoldsAt(s, e, k);
      HoldsWithout(s, e, k);
      DelRemoves(e, k, it.key);
      DelAscending(e, it.key);
      entries := Del(e, it.key);
      ConsMembers(it, was);
      OrderInItems();
    }

    /** `remove` of a key. */
    method Remove(key: int)
      requires Valid()
      modifies Footprint()
      ensures Valid() && entries == Del(old(entries), key) && Footprint() == old(Footprint())
    {
      hide Valid, Del, ToMap, AvlShape.Items;
      var it, _ := Find(key);
      if it != core.endItem {
        ghost var next := RemoveAt(it);
      } else {
        Absent(key);
      }
    }

    lemma Absent(key: int)
      requires Valid() && key !in ToMap(entries)
      ensures Del(entries, key) == entries
    {
      forall i | 0 <= i < |entries| ensures entries[i].0 != key { MapAt(entries, i); }
      DelNothing(entries, key);
    }

    method Clear()
      requires Valid()
      modifies Footprint()
      ensures Valid() && entries == [] && core.Order() == [] && Footprint() == old(Footprint())
    {
      OrderInItems();
      core.Clear();
      entries := [];
    }

    // ---- how far a lookup goes ----

    /** The tree of every map is so low that a lookup takes logarithmically many steps. */
    lemma LookupIsLogarithmic()
      requires Valid()
      ensures core.size == |ToMap(entries)|
      ensures core.size >= Fib(Height(core.tree) + 2) - 1
      ensures Pow2(Height(core.tree) / 2) <= core.size + 1
    {
      hide Ascending, Fib, Pow2, AvlShape.Height, AvlShape.InOrder, Threaded, Chained, Distinct, ToMap;
      HeightNeedsItems(core.tree);
      LogarithmicHeight(core.tree);
      MapSize(entries);
    }
  }

  /** One item of a sequence gets a new value. */
  twostate lemma HoldsUpdate<V(0)>(at: (seq<Item<V>>, Entries<V>, nat))
    requires old(Holds(at.0, at.1)) && Distinct(at.0) && at.2 < |at.0|
    requires forall i :: 0 <= i < |at.0| ==> at.0[i].key == old(at.0[i].key) && (i != at.2 ==> at.0[i].value == old(at.0[i].value))
    ensures |at.1| == |at.0| && Holds(at.0, at.1[at.2 := (at.0[at.2].key, at.0[at.2].value)])
  {
  }
}
