/**
 The nodes that `Map` and `MultiMap` share their layout of, and the code that is the same in
 both: rotations and rebalancing on nodes with parent pointers and cached heights.
 */
module AvlHeap {
  import opened Basics
  import opened AvlShape

  class Item<V(0)> {
    var key: int
    var value: V
    var parent: Item?<V>
    var left: Item?<V>
    var right: Item?<V>
    var height: nat
    var slope: int
    var next: Item?<V>
    var prev: Item?<V>

    /** Storage for one item, as in a fresh block. */
    constructor () {
      parent, left, right, next, prev := null, null, null, null, null;
    }

    /** Constructs an item in place; `next` and `prev` keep what the storage held. */
    method Construct(parent: Item?<V>, key: int, value: V)
      modifies this`key, this`value, this`parent, this`left, this`right, this`height, this`slope
      ensures this.key == key && this.value == value && this.parent == parent
      ensures left == null && right == null && height == 1 && slope == 0
    {
      this.key, this.value, this.parent := key, value, parent;
      left, right, height, slope := null, null, 1, 0;
    }

    method UpdateHeightAndSlope()
      modifies this`height, this`slope
      ensures var l, r := if left == null then 0 else old(left.height), if right == null then 0 else old(right.height);
              height == 1 + Higher(l, r) && slope == l - r
    {
      var leftHeight := if left != null then left.height else 0;
      var rightHeight := if right != null then right.height else 0;
      slope := leftHeight - rightHeight;
      height := (if leftHeight > rightHeight then leftHeight else rightHeight) + 1;
    }
  }

  ghost function Root<V(0)>(t: Tree<Item<V>>): Item?<V> {
    if t.Leaf? then null else t.item
  }

  /** The pointers of the items are those of the shape, under parent `p`. */
  ghost predicate Linked<V(0)>(t: Tree<Item<V>>, p: Item?<V>)
    reads Items(t)`left, Items(t)`right, Items(t)`parent
  {
    t.Node? ==>
      && t.item.left == Root(t.left) && t.item.right == Root(t.right) && t.item.parent == p
      && Linked(t.left, t.item) && Linked(t.right, t.item)
  }

  /** The cached height and slope of every item are right. */
  ghost predicate Cached<V(0)>(t: Tree<Item<V>>)
    reads Items(t)`height, Items(t)`slope
  {
    t.Node? ==> t.item.height == Height(t) && t.item.slope == Slope(t) && Cached(t.left) && Cached(t.right)
  }

  twostate predicate SameLinks<V(0)>(s: set<Item<V>>)
    reads s
  {
    forall x :: x in s ==> x.left == old(x.left) && x.right == old(x.right) && x.parent == old(x.parent)
  }

  twostate predicate SameHeights<V(0)>(s: set<Item<V>>)
    reads s
  {
    forall x :: x in s ==> x.height == old(x.height) && x.slope == old(x.slope)
  }

  /** Pointers that do not change stay linked. */
  twostate lemma {:induction false} KeepLinked<V(0)>(t: Tree<Item<V>>)
    requires t.Node? ==> old(Linked(t, t.item.parent))
    requires SameLinks(Items(t))
    ensures t.Node? ==> Linked(t, t.item.parent)
  {
    if t.Node? {
      KeepLinked(t.left);
      KeepLinked(t.right);
    }
  }

  /** A subtree whose root alone got another parent is linked under that parent. */
  twostate lemma MovedLinked<V(0)>(t: Tree<Item<V>>)
    requires t.Node? ==>
               && old(Linked(t, t.item.parent))
               && t.item.left == old(t.item.left) && t.item.right == old(t.item.right)
               && SameLinks(Items(t.left)) && SameLinks(Items(t.right))
    ensures t.Node? ==> Linked(t, t.item.parent)
  {
    if t.Node? {
      KeepLinked(t.left);
      KeepLinked(t.right);
    }
  }

  twostate lemma {:induction false} KeepCached<V(0)>(t: Tree<Item<V>>)
    requires old(Cached(t))
    requires SameHeights(Items(t))
    ensures Cached(t)
  {
    if t.Node? {
      KeepCached(t.left);
      KeepCached(t.right);
    }
  }

  ghost function Parent<V(0)>(c: Ctx<Item<V>>): Item?<V> {
    if c.Top? then null else c.item
  }

  /** The cached heights around a hole are right for a hole of height `h`. */
  ghost predicate CtxCached<V(0)>(c: Ctx<Item<V>>, h: nat)
    reads CtxItems(c)`height, CtxItems(c)`slope
  {
    match c
    case Top => true
    case InLeft(up, x, r) =>
      x.height == 1 + Higher(h, Height(r)) && x.slope == h - Height(r) && Cached(r) && CtxCached(up, 1 + Higher(h, Height(r)))
    case InRight(l, x, up) =>
      x.height == 1 + Higher(Height(l), h) && x.slope == Height(l) - h && Cached(l) && CtxCached(up, 1 + Higher(Height(l), h))
  }

  /** The pair is a context and the height of its hole. */
  twostate lemma {:induction false} KeepCtxCached<V(0)>(hole: (Ctx<Item<V>>, nat))
    requires old(CtxCached(hole.0, hole.1))
    requires SameHeights(CtxItems(hole.0))
    ensures CtxCached(hole.0, hole.1)
    decreases hole.0
  {
    var (c, h) := hole;
    match c
    case Top =>
    case InLeft(up, x, r) =>
      KeepCached(r);
      KeepCtxCached((up, 1 + Higher(h, Height(r))));
    case InRight(l, x, up) =>
      KeepCached(l);
      KeepCtxCached((up, 1 + Higher(Height(l), h)));
  }

  /** A place that holds a pointer to a subtree: `Item** cell`. */
  datatype Cell<V(0)> = AtRoot | AtLeft(p: Item<V>) | AtRight(p: Item<V>)

  function CellOf<V(0)>(c: Ctx<Item<V>>): Cell<V> {
    match c
    case Top => AtRoot
    case InLeft(_, x, _) => AtLeft(x)
    case InRight(_, x, _) => AtRight(x)
  }

  /** The item whose field the cell is, if it is not the root pointer. */
  function CellItem<V(0)>(cell: Cell<V>): set<Item<V>> {
    if cell.AtRoot? then {} else {cell.p}
  }

  ghost function Single<V(0)>(x: Item?<V>): set<Item<V>> {
    if x == null then {} else {x}
  }

  function HeightOf<V(0)>(x: Item?<V>): nat
    reads x
  {
    if x != null then x.height else 0
  }

  class Avl<V(0)> {
    var root: Item?<V>

    constructor ()
      ensures root == null
    {
      root := null;
    }

    /** The pointers around a hole are those of the context, whatever the cell of the hole holds. */
    ghost predicate CtxLinked(c: Ctx<Item<V>>)
      reads this, CtxItems(c)`left, CtxItems(c)`right, CtxItems(c)`parent
    {
      match c
      case Top => true
      case InLeft(up, x, r) =>
        x.right == Root(r) && x.parent == Parent(up) && Linked(r, x) && CtxLinked(up) && Load(CellOf(up)) == x
      case InRight(l, x, up) =>
        x.left == Root(l) && x.parent == Parent(up) && Linked(l, x) && CtxLinked(up) && Load(CellOf(up)) == x
    }

    twostate lemma {:induction false} KeepCtxLinked(c: Ctx<Item<V>>)
      requires old(CtxLinked(c))
      requires root == old(root) && SameLinks(CtxItems(c))
      ensures CtxLinked(c)
      decreases c
    {
      match c
      case Top =>
      case InLeft(up, x, r) =>
        KeepLinked(r);
        KeepCtxLinked(up);
      case InRight(l, x, up) =>
        KeepLinked(l);
        KeepCtxLinked(up);
    }

    /** A context stays linked when only the cell of its hole changes. */
    twostate lemma StoredCtx(c: Ctx<Item<V>>)
      requires old(CtxLinked(c)) && CtxProper(c)
      requires !c.Top? ==> root == old(root) && c.item.parent == old(c.item.parent) && SameLinks(CtxItems(c.up))
      requires c.InLeft? ==> c.item.right == old(c.item.right) && SameLinks(Items(c.right))
      requires c.InRight? ==> c.item.left == old(c.item.left) && SameLinks(Items(c.left))
      ensures CtxLinked(c)
    {
      match c
      case Top =>
      case InLeft(up, x, r) =>
        KeepLinked(r);
        KeepCtxLinked(up);
      case InRight(l, x, up) =>
        KeepLinked(l);
        KeepCtxLinked(up);
    }

    static ghost function All(c: Ctx<Item<V>>, t: Tree<Item<V>>): set<Item<V>> {
      Items(t) + CtxItems(c)
    }

    /** The whole tree, cut at a hole. */
    ghost predicate Cut(c: Ctx<Item<V>>, t: Tree<Item<V>>)
      reads this, CtxItems(c)`left, CtxItems(c)`right, CtxItems(c)`parent
      reads Items(t)`left, Items(t)`right, Items(t)`parent
    {
      Apart(c, t) && CtxLinked(c) && Load(CellOf(c)) == Root(t) && Linked(t, Parent(c))
    }

    function Load(cell: Cell<V>): Item?<V>
      reads this, CellItem(cell)`left, CellItem(cell)`right
    {
      match cell
      case AtRoot => root
      case AtLeft(p) => p.left
      case AtRight(p) => p.right
    }

    method Store(cell: Cell<V>, x: Item?<V>)
      modifies this`root, CellItem(cell)`left, CellItem(cell)`right
      ensures Load(cell) == x
      ensures cell.AtLeft? ==> cell.p.right == old(cell.p.right)
      ensures cell.AtRight? ==> cell.p.left == old(cell.p.left)
      ensures !cell.AtRoot? ==> root == old(root)
    {
      match cell {
        case AtRoot => root := x;
        case AtLeft(p) => p.left := x;
        case AtRight(p) => p.right := x;
      }
    }

    /** `rotr`; `x` and `y` name the old and the new top, `keep` and `still` items whose
        pointers and whose heights it does not touch. */
    method RotR(cell: Cell<V>, ghost x: Item<V>, ghost y: Item<V>, ghost keep: set<Item<V>>, ghost still: set<Item<V>>)
      requires Load(cell) == x && x.left == y && x != y
      requires keep !! {x, y} + Single(y.right) + CellItem(cell) && still !! {x, y}
      requires {y.right, x.right, y.left} !! {x, y} && CellItem(cell) !! {x, y}
      modifies this`root, CellItem(cell)`left, CellItem(cell)`right
      modifies {x, y}`left, {x, y}`right, {x, y}`parent, {x, y}`height, {x, y}`slope, Single(y.right)`parent
      ensures SameLinks(keep) && SameHeights(still)
      ensures Load(cell) == y
      ensures cell.AtLeft? ==> cell.p.right == old(cell.p.right)
      ensures cell.AtRight? ==> cell.p.left == old(cell.p.left)
      ensures !cell.AtRoot? ==> root == old(root)
      ensures y.parent == old(x.parent) && y.left == old(y.left) && y.right == x
      ensures x.parent == y && x.left == old(y.right) && x.right == old(x.right)
      ensures x.left != null ==> x.left.parent == x
      ensures x.height == 1 + Higher(HeightOf(x.left), HeightOf(x.right)) && x.slope == HeightOf(x.left) - HeightOf(x.right)
      ensures y.height == 1 + Higher(HeightOf(y.left), HeightOf(y.right)) && y.slope == HeightOf(y.left) - HeightOf(y.right)
    {
      var oldTop := Load(cell);
      var result := oldTop.left;
      var tmp := result.right;
      result.parent := oldTop.parent;
      result.right := oldTop;
      oldTop.left := tmp;
      if tmp != null {
        tmp.parent := oldTop;
      }
      oldTop.parent := result;
      Store(cell, result);
      oldTop.UpdateHeightAndSlope();
      result.UpdateHeightAndSlope();
    }

    /** `rotl`; `x` and `y` name the old and the new top, `keep` and `still` items whose
        pointers and whose heights it does not touch. */
    method RotL(cell: Cell<V>, ghost x: Item<V>, ghost y: Item<V>, ghost keep: set<Item<V>>, ghost still: set<Item<V>>)
      requires Load(cell) == x && x.right == y && x != y
      requires keep !! {x, y} + Single(y.left) + CellItem(cell) && still !! {x, y}
      requires {y.left, x.left, y.right} !! {x, y} && CellItem(cell) !! {x, y}
      modifies this`root, CellItem(cell)`right, CellItem(cell)`left
      modifies {x, y}`right, {x, y}`left, {x, y}`parent, {x, y}`height, {x, y}`slope, Single(y.left)`parent
      ensures SameLinks(keep) && SameHeights(still)
      ensures Load(cell) == y
      ensures cell.AtLeft? ==> cell.p.right == old(cell.p.right)
      ensures cell.AtRight? ==> cell.p.left == old(cell.p.left)
      ensures !cell.AtRoot? ==> root == old(root)
      ensures y.parent == old(x.parent) && y.right == old(y.right) && y.left == x
      ensures x.parent == y && x.right == old(y.left) && x.left == old(x.left)
      ensures x.right != null ==> x.right.parent == x
      ensures x.height == 1 + Higher(HeightOf(x.left), HeightOf(x.right)) && x.slope == HeightOf(x.left) - HeightOf(x.right)
      ensures y.height == 1 + Higher(HeightOf(y.left), HeightOf(y.right)) && y.slope == HeightOf(y.left) - HeightOf(y.right)
    {
      var oldTop := Load(cell);
      var result := oldTop.right;
      var tmp := result.left;
      result.parent := oldTop.parent;
      result.left := oldTop;
      oldTop.right := tmp;
      if tmp != null {
        tmp.parent := oldTop;
      }
      oldTop.parent := result;
      Store(cell, result);
      oldTop.UpdateHeightAndSlope();
      result.UpdateHeightAndSlope();
    }

    /** What a rotation leaves alone: all but `x`, `y`, the root of `b` and the holder of the cell. */
    static ghost function Rest(c: Ctx<Item<V>>, t: Tree<Item<V>>, x: Item<V>, y: Item<V>, b: Tree<Item<V>>): set<Item<V>> {
      Items(t) + CtxItems(c) - {x, y} - Single(Root(b)) - CellItem(CellOf(c))
    }

    static ghost function Besides(t: Tree<Item<V>>, x: Item<V>, y: Item<V>): set<Item<V>> {
      Items(t) - {x, y}
    }

    static lemma CtxRest(c: Ctx<Item<V>>, t: Tree<Item<V>>, x: Item<V>, y: Item<V>, b: Tree<Item<V>>)
      requires Apart(c, t) && {x, y} <= Items(t) && Items(b) <= Items(t)
      ensures c.InLeft? ==> Items(c.right) <= Rest(c, t, x, y, b) && CtxItems(c.up) <= Rest(c, t, x, y, b)
      ensures c.InRight? ==> Items(c.left) <= Rest(c, t, x, y, b) && CtxItems(c.up) <= Rest(c, t, x, y, b)
    {
    }

    static lemma RotateRightRest(c: Ctx<Item<V>>, t: Tree<Item<V>>)
      requires Apart(c, t) && CanRotateRight(t)
      ensures var b := t.left.right; var rest := Rest(c, t, t.item, t.left.item, b);
              && Items(t.left.left) <= rest && Items(t.right) <= rest
              && (b.Node? ==> Items(b.left) <= rest && Items(b.right) <= rest)
    {
      assert Proper(t.left) && Proper(t.left.right);
    }

    twostate lemma RotatedRight(z: Zip<Item<V>>)
      requires CanRotateRight(z.sub) && old(Cut(z.ctx, z.sub)) && Load(CellOf(z.ctx)) == z.sub.left.item
      requires SameLinks(Rest(z.ctx, z.sub, z.sub.item, z.sub.left.item, z.sub.left.right))
      requires var x, y, b := z.sub.item, z.sub.left.item, z.sub.left.right;
               && y.parent == old(x.parent) && y.left == old(y.left) && y.right == x
               && x.parent == y && x.left == old(y.right) && x.right == old(x.right)
               && (b.Node? ==> b.item.parent == x && b.item.left == old(b.item.left) && b.item.right == old(b.item.right))
      requires !z.ctx.Top? ==> root == old(root) && z.ctx.item.parent == old(z.ctx.item.parent)
      requires z.ctx.InLeft? ==> z.ctx.item.right == old(z.ctx.item.right)
      requires z.ctx.InRight? ==> z.ctx.item.left == old(z.ctx.item.left)
      ensures Cut(z.ctx, RotateRight(z.sub)) && Linked(RotateRight(z.sub), Parent(z.ctx))
    {
      var c, t := z.ctx, z.sub;
      var x, y, a, b, d := t.item, t.left.item, t.left.left, t.left.right, t.right;
      RotateRightRest(c, t);
      CtxRest(c, t, x, y, b);
      assert old(Linked(t.left, x)) && old(Linked(a, y)) && old(Linked(b, y)) && old(Linked(d, x));
      KeepLinked(a);
      MovedLinked(b);
      KeepLinked(d);
      StoredCtx(c);
      RotateKeepsProper(t);
      RotateKeepsOrder(t);
    }

    twostate lemma RecachedRight(z: Zip<Item<V>>)
      requires var t := z.sub;
               && CanRotateRight(t)
               && old(Cached(t.left.left)) && old(Cached(t.left.right)) && old(Cached(t.right))
               && SameHeights(Besides(t, t.item, t.left.item)) && Proper(t)
      requires Linked(RotateRight(z.sub), Parent(z.ctx))
      requires var x, y := z.sub.item, z.sub.left.item;
               && x.height == 1 + Higher(HeightOf(x.left), HeightOf(x.right)) && x.slope == HeightOf(x.left) - HeightOf(x.right)
               && y.height == 1 + Higher(HeightOf(y.left), HeightOf(y.right)) && y.slope == HeightOf(y.left) - HeightOf(y.right)
      ensures Cached(RotateRight(z.sub))
    {
      var t := z.sub;
      assert Proper(t.left);
      KeepCached(t.left.left);
      KeepCached(t.left.right);
      KeepCached(t.right);
    }

    lemma RotateRightReady(c: Ctx<Item<V>>, t: Tree<Item<V>>)
      requires Cut(c, t) && CanRotateRight(t)
      ensures var x, y, cell := t.item, t.left.item, CellOf(c);
              && Load(cell) == x && x.left == y && y.right == Root(t.left.right) && x != y && {x, y} <= Items(t) && Single(y.right) <= Items(t)
              && {y.right, x.right, y.left} !! {x, y} && CellItem(cell) !! {x, y} && CellItem(cell) <= CtxItems(c)
              && Rest(c, t, x, y, t.left.right) !! {x, y} + Single(y.right) + CellItem(cell)
    {
      assert Linked(t.left, t.item) && Proper(t.left);
    }

    /** `rotr`, seen as a rotation of the shape. */
    method RotateRightAt(cell: Cell<V>, ghost c: Ctx<Item<V>>, ghost t: Tree<Item<V>>)
      requires cell == CellOf(c) && Cut(c, t) && CanRotateRight(t)
      requires Cached(t.left.left) && Cached(t.left.right) && Cached(t.right)
      modifies this`root, All(c, t)`left, All(c, t)`right, All(c, t)`parent, Items(t)`height, Items(t)`slope
      ensures Cut(c, RotateRight(t)) && Cached(RotateRight(t))
    {
      ghost var x, y, b := t.item, t.left.item, t.left.right;
      hide Cut, Linked, Cached;
      RotateRightReady(c, t);
      RotR(cell, x, y, Rest(c, t, x, y, b), Besides(t, x, y));
      RotatedRight(Zip(c, t));
      RecachedRight(Zip(c, t));
    }

    static lemma RotateLeftRest(c: Ctx<Item<V>>, t: Tree<Item<V>>)
      requires Apart(c, t) && CanRotateLeft(t)
      ensures var b := t.right.left; var rest := Rest(c, t, t.item, t.right.item, b);
              && Items(t.right.right) <= rest && Items(t.left) <= rest
              && (b.Node? ==> Items(b.right) <= rest && Items(b.left) <= rest)
    {
      assert Proper(t.right) && Proper(t.right.left);
    }

    twostate lemma RotatedLeft(z: Zip<Item<V>>)
      requires CanRotateLeft(z.sub) && old(Cut(z.ctx, z.sub)) && Load(CellOf(z.ctx)) == z.sub.right.item
      requires SameLinks(Rest(z.ctx, z.sub, z.sub.item, z.sub.right.item, z.sub.right.left))
      requires var x, y, b := z.sub.item, z.sub.right.item, z.sub.right.left;
               && y.parent == old(x.parent) && y.right == old(y.right) && y.left == x
               && x.parent == y && x.right == old(y.left) && x.left == old(x.left)
               && (b.Node? ==> b.item.parent == x && b.item.right == old(b.item.right) && b.item.left == old(b.item.left))
      requires !z.ctx.Top? ==> root == old(root) && z.ctx.item.parent == old(z.ctx.item.parent)
      requires z.ctx.InLeft? ==> z.ctx.item.right == old(z.ctx.item.right)
      requires z.ctx.InRight? ==> z.ctx.item.left == old(z.ctx.item.left)
      ensures Cut(z.ctx, RotateLeft(z.sub)) && Linked(RotateLeft(z.sub), Parent(z.ctx))
    {
      var c, t := z.ctx, z.sub;
      var x, y, a, b, d := t.item, t.right.item, t.right.right, t.right.left, t.left;
      RotateLeftRest(c, t);
      CtxRest(c, t, x, y, b);
      assert old(Linked(t.right, x)) && old(Linked(a, y)) && old(Linked(b, y)) && old(Linked(d, x));
      KeepLinked(a);
      MovedLinked(b);
      KeepLinked(d);
      StoredCtx(c);
      RotateKeepsProper(t);
      RotateKeepsOrder(t);
    }

    twostate lemma RecachedLeft(z: Zip<Item<V>>)
      requires var t := z.sub;
               && CanRotateLeft(t)
               && old(Cached(t.right.right)) && old(Cached(t.right.left)) && old(Cached(t.left))
               && SameHeights(Besides(t, t.item, t.right.item)) && Proper(t)
      requires Linked(RotateLeft(z.sub), Parent(z.ctx))
      requires var x, y := z.sub.item, z.sub.right.item;
               && x.height == 1 + Higher(HeightOf(x.left), HeightOf(x.right)) && x.slope == HeightOf(x.left) - HeightOf(x.right)
               && y.height == 1 + Higher(HeightOf(y.left), HeightOf(y.right)) && y.slope == HeightOf(y.left) - HeightOf(y.right)
      ensures Cached(RotateLeft(z.sub))
    {
      var t := z.sub;
      assert Proper(t.right);
      KeepCached(t.right.right);
      KeepCached(t.right.left);
      KeepCached(t.left);
    }

    lemma RotateLeftReady(c: Ctx<Item<V>>, t: Tree<Item<V>>)
      requires Cut(c, t) && CanRotateLeft(t)
      ensures var x, y, cell := t.item, t.right.item, CellOf(c);
              && Load(cell) == x && x.right == y && y.left == Root(t.right.left) && x != y && {x, y} <= Items(t) && Single(y.left) <= Items(t)
              && {y.left, x.left, y.right} !! {x, y} && CellItem(cell) !! {x, y} && CellItem(cell) <= CtxItems(c)
              && Rest(c, t, x, y, t.right.left) !! {x, y} + Single(y.left) + CellItem(cell)
    {
      assert Linked(t.right, t.item) && Proper(t.right);
    }

    /** `rotl`, seen as a rotation of the shape. */
    method RotateLeftAt(cell: Cell<V>, ghost c: Ctx<Item<V>>, ghost t: Tree<Item<V>>)
      requires cell == CellOf(c) && Cut(c, t) && CanRotateLeft(t)
      requires Cached(t.right.right) && Cached(t.right.left) && Cached(t.left)
      modifies this`root, CtxItems(c)`right, CtxItems(c)`left
      modifies Items(t)`right, Items(t)`left, Items(t)`parent, Items(t)`height, Items(t)`slope
      ensures Cut(c, RotateLeft(t)) && Cached(RotateLeft(t))
    {
      ghost var x, y, b := t.item, t.right.item, t.right.left;
      hide Cut, Linked, Cached;
      RotateLeftReady(c, t);
      RotL(cell, x, y, Rest(c, t, x, y, b), Besides(t, x, y));
      RotatedLeft(Zip(c, t));
      RecachedLeft(Zip(c, t));
    }

    // ---- rebalancing one item ----

    /** Moving the cut one level down or up. */
    lemma CutLeft(c: Ctx<Item<V>>, t: Tree<Item<V>>)
      requires t.Node?
      ensures Cut(c, t) <==> Cut(InLeft(c, t.item, t.right), t.left) && Load(CellOf(c)) == t.item
    {
    }

    lemma CutRight(c: Ctx<Item<V>>, t: Tree<Item<V>>)
      requires t.Node?
      ensures Cut(c, t) <==> Cut(InRight(t.left, t.item, c), t.right) && Load(CellOf(c)) == t.item
    {
    }

    /** The `rotl` on the left child of an item. */
    method RotateLeftChild(top: Item<V>, ghost c: Ctx<Item<V>>, ghost t: Tree<Item<V>>)
      requires Cut(c, t) && t.Node? && t.item == top && Cached(t.left) && Cached(t.right) && CanRotateLeft(t.left)
      modifies this`root, All(c, t)`left, All(c, t)`right, All(c, t)`parent, Items(t.left)`height, Items(t.left)`slope
      ensures Cut(c, t.(left := RotateLeft(t.left))) && Cached(RotateLeft(t.left)) && Cached(t.right)
    {
      CutLeft(c, t);
      assert Cached(t.left.right) && allocated(Items(t.right)) && Items(t.left) !! Items(t.right);
      RotateLeftAt(AtLeft(top), InLeft(c, t.item, t.right), t.left);
      CutLeft(c, t.(left := RotateLeft(t.left)));
      KeepCached(t.right);
    }

    method RotateRightChild(top: Item<V>, ghost c: Ctx<Item<V>>, ghost t: Tree<Item<V>>)
      requires Cut(c, t) && t.Node? && t.item == top && Cached(t.left) && Cached(t.right) && CanRotateRight(t.right)
      modifies this`root, All(c, t)`left, All(c, t)`right, All(c, t)`parent, Items(t.right)`height, Items(t.right)`slope
      ensures Cut(c, t.(right := RotateRight(t.right))) && Cached(RotateRight(t.right)) && Cached(t.left)
    {
      CutRight(c, t);
      assert Cached(t.right.left) && allocated(Items(t.left)) && Items(t.left) !! Items(t.right);
      RotateRightAt(AtRight(top), InRight(t.left, t.item, c), t.right);
      CutRight(c, t.(right := RotateRight(t.right)));
      KeepCached(t.left);
    }

    method ShiftR(cell: Cell<V>, ghost c: Ctx<Item<V>>, ghost t: Tree<Item<V>>)
      requires cell == CellOf(c) && Cut(c, t) && Cached(t) && NearlyBalanced(t) && Slope(t) > 1
      modifies this`root, All(c, t)`left, All(c, t)`right, All(c, t)`parent, Items(t)`height, Items(t)`slope
      ensures Cut(c, Rebalance(t)) && Cached(Rebalance(t))
    {
      var oldTop := Load(cell);
      ghost var u := t;
      assert Cached(t.left) && t.left.Node? && oldTop.left == t.left.item;
      if oldTop.left.slope == -1 {
        RotateLeftChild(oldTop, c, t);
        u := t.(left := RotateLeft(t.left));
        RotateKeepsOrder(t.left);
        assert Cached(u.left.left) && Cached(u.left.right);
      }
      RotateRightAt(cell, c, u);
    }

    method ShiftL(cell: Cell<V>, ghost c: Ctx<Item<V>>, ghost t: Tree<Item<V>>)
      requires cell == CellOf(c) && Cut(c, t) && Cached(t) && NearlyBalanced(t) && Slope(t) < -1
      modifies this`root, All(c, t)`left, All(c, t)`right, All(c, t)`parent, Items(t)`height, Items(t)`slope
      ensures Cut(c, Rebalance(t)) && Cached(Rebalance(t))
    {
      var oldTop := Load(cell);
      ghost var u := t;
      assert Cached(t.right) && t.right.Node? && oldTop.right == t.right.item;
      if oldTop.right.slope == 1 {
        RotateRightChild(oldTop, c, t);
        u := t.(right := RotateRight(t.right));
        RotateKeepsOrder(t.right);
        assert Cached(u.right.left) && Cached(u.right.right);
      }
      RotateLeftAt(cell, c, u);
    }

    /** The cell that holds an item, found through its parent. */
    function CellFor(item: Item<V>): Cell<V>
      reads item, item.parent
    {
      if item.parent == null then AtRoot
      else if item.parent.left == item then AtLeft(item.parent) else AtRight(item.parent)
    }

    lemma CellFound(c: Ctx<Item<V>>, t: Tree<Item<V>>)
      requires Cut(c, t) && t.Node?
      ensures CellFor(t.item) == CellOf(c)
    {
      assert c.InRight? ==> Root(c.left) != t.item by {
        if c.InRight? && c.left.Node? { assert c.left.item in Items(c.left) && t.item in Items(t); }
      }
    }

    /** `rebal`: rotates when the item's slope is out of range, and returns the top of its subtree. */
    method Rebal(item: Item<V>, ghost c: Ctx<Item<V>>, ghost t: Tree<Item<V>>) returns (top: Item<V>)
      requires Cut(c, t) && Cached(t) && NearlyBalanced(t) && t.item == item
      modifies this`root, All(c, t)`left, All(c, t)`right, All(c, t)`parent, Items(t)`height, Items(t)`slope
      ensures Cut(c, Rebalance(t)) && Cached(Rebalance(t)) && top == Rebalance(t).item
    {
      top := item;
      if item.slope > 1 {
        var cell := CellFor(item);
        CellFound(c, t);
        ShiftR(cell, c, t);
        top := Load(cell);
      } else if item.slope < -1 {
        var cell := CellFor(item);
        CellFound(c, t);
        ShiftL(cell, c, t);
        top := Load(cell);
      }
    }

    // ---- rebalancing upwards ----

    lemma {:induction false} PlugCut(c: Ctx<Item<V>>, t: Tree<Item<V>>)
      requires Cut(c, t)
      ensures Cut(Top, Plug(c, t))
      decreases c
    {
      match c
      case Top =>
      case InLeft(up, x, r) =>
        CutLeft(up, Node(t, x, r));
        PlugCut(up, Node(t, x, r));
      case InRight(l, x, up) =>
        CutRight(up, Node(l, x, t));
        PlugCut(up, Node(l, x, t));
    }

    lemma {:induction false} PlugCached(c: Ctx<Item<V>>, t: Tree<Item<V>>)
      requires Cached(t) && CtxCached(c, Height(t))
      ensures Cached(Plug(c, t))
      decreases c
    {
      match c
      case Top =>
      case InLeft(up, x, r) => PlugCached(up, Node(t, x, r));
      case InRight(l, x, up) => PlugCached(up, Node(l, x, t));
    }

    method Recompute(item: Item<V>, ghost c: Ctx<Item<V>>, ghost t: Tree<Item<V>>)
      requires Cut(c, t) && t.Node? && t.item == item && Cached(t.left) && Cached(t.right)
      modifies item`height, item`slope
      ensures Cut(c, t) && Cached(t)
    {
      assert allocated(Items(t)) && allocated(Items(t.left)) && allocated(Items(t.right)) && allocated(CtxItems(c));
      item.UpdateHeightAndSlope();
      KeepCached(t.left);
      KeepCached(t.right);
    }

    /** `parent->updateHeightAndSlope(); parent = rebal(parent);` */
    method Refresh(parent: Item<V>, ghost c: Ctx<Item<V>>, ghost t: Tree<Item<V>>) returns (top: Item<V>)
      requires Cut(c, t) && t.Node? && t.item == parent && Cached(t.left) && Cached(t.right) && NearlyBalanced(t)
      modifies this`root, All(c, t)`left, All(c, t)`right, All(c, t)`parent, Items(t)`height, Items(t)`slope
      ensures Cut(c, Rebalance(t)) && Cached(Rebalance(t)) && top == Rebalance(t).item
    {
      Recompute(parent, c, t);
      top := Rebal(parent, c, t);
    }

    /** The cut moves up to the hole's parent. */
    lemma CutUp(c: Ctx<Item<V>>, t: Tree<Item<V>>)
      requires !c.Top? && Cut(c, t)
      ensures Cut(c.up, Grown(c, t)) && Grown(c, t).item.parent == Parent(c.up)
    {
      if c.InLeft? { CutLeft(c.up, Grown(c, t)); } else { CutRight(c.up, Grown(c, t)); }
    }

    /** Everything is in order but for the height of the hole, which the context takes to be `h`. */
    ghost predicate Pending(c: Ctx<Item<V>>, t: Tree<Item<V>>, h: nat)
      reads this, All(c, t)`left, All(c, t)`right, All(c, t)`parent, All(c, t)`height, All(c, t)`slope
    {
      && Cut(c, t) && Cached(t) && Balanced(t)
      && CtxCached(c, h) && CtxBalanced(c, h) && -1 <= Height(t) - h <= 1
    }

    /** A whole tree in order. */
    ghost predicate Whole(t: Tree<Item<V>>)
      reads this, Items(t)`left, Items(t)`right, Items(t)`parent, Items(t)`height, Items(t)`slope
    {
      Cut(Top, t) && Cached(t) && Balanced(t)
    }

    lemma CtxCachedUp(c: Ctx<Item<V>>, h: nat)
      requires !c.Top? && CtxCached(c, h)
      ensures c.item.height == 1 + Higher(h, Height(Sibling(c)))
      ensures Cached(Sibling(c)) && CtxCached(c.up, c.item.height)
    {
    }

    lemma ClimbHeights(c: Ctx<Item<V>>, t: Tree<Item<V>>, h: nat)
      requires !c.Top? && Pending(c, t, h)
      ensures var g, k := Grown(c, t), c.item.height;
              && NearlyBalanced(g) && Cached(g.left) && Cached(g.right)
              && CtxCached(c.up, k) && CtxBalanced(c.up, k)
              && -1 <= Height(Rebalance(g)) - k <= 1 && Balanced(Rebalance(g))
    {
      hide Cut, Cached, CtxCached, CtxBalanced, Rebalance, NearlyBalanced, Balanced, Height;
      GrowBalance(c, t, h);
      CtxCachedUp(c, h);
    }

    /** One turn of the loop: the hole's parent is brought up to date and its subtree becomes the hole. */
    method Climb(parent: Item<V>, ghost c: Ctx<Item<V>>, ghost t: Tree<Item<V>>, ghost h: nat) returns (top: Item<V>)
      requires !c.Top? && parent == c.item && Pending(c, t, h)
      modifies this`root, All(c, t)`left, All(c, t)`right, All(c, t)`parent
      modifies Items(Grown(c, t))`height, Items(Grown(c, t))`slope
      ensures NearlyBalanced(Grown(c, t))
      ensures var u := Rebalance(Grown(c, t)); top == u.item && Pending(c.up, u, old(parent.height)) && top.height == Height(u)
    {
      ghost var g, up, k := Grown(c, t), c.up, parent.height;
      GrownItems(c, t);
      CutUp(c, t);
      ClimbHeights(c, t, h);
      assert allocated(CtxItems(up)) && Items(g) !! CtxItems(up);
      top := Refresh(parent, up, g);
      KeepCtxCached((up, k));
    }

    /** A subtree of the height its context expects makes the tree whole. */
    lemma Settled(c: Ctx<Item<V>>, t: Tree<Item<V>>, h: nat)
      requires Pending(c, t, h) && (c.Top? || Height(t) == h)
      ensures Whole(Plug(c, t))
    {
      if !c.Top? {
        PlugCut(c, t);
        PlugCached(c, t);
        PlugBalanced(c, t);
      }
    }

    /**
     The loop at the end of `insert` and the one at `rebalParentUpwards` in `remove`: it stops at
     the root, or as soon as an item keeps its height.
     */
    method RebalanceUpwards(start: Item?<V>, ghost c0: Ctx<Item<V>>, ghost t0: Tree<Item<V>>, ghost h0: nat)
      returns (ghost whole: Tree<Item<V>>)
      requires start == Parent(c0) && Pending(c0, t0, h0)
      modifies this`root, All(c0, t0)`left, All(c0, t0)`right, All(c0, t0)`parent
      modifies All(c0, t0)`height, All(c0, t0)`slope
      ensures Whole(whole)
      ensures InOrder(whole) == Before(c0) + InOrder(t0) + After(c0) && Items(whole) == Items(t0) + CtxItems(c0)
    {
      var parent := start;
      ghost var c, t, h := c0, t0, h0;
      while parent != null
        invariant parent == Parent(c) && Pending(c, t, h)
        invariant Items(t) + CtxItems(c) == Items(t0) + CtxItems(c0)
        invariant Before(c) + InOrder(t) + After(c) == Before(c0) + InOrder(t0) + After(c0)
        decreases c
      {
        var oldHeight := parent.height;
        GrownItems(c, t);
        parent := Climb(parent, c, t, h);
        RebalanceWorks(Grown(c, t));
        c, t, h := c.up, Rebalance(Grown(c, t)), oldHeight;
        if oldHeight == parent.height {
          break;
        }
        parent := parent.parent;
      }
      Settled(c, t, h);
      PlugOrder(c, t);
      whole := Plug(c, t);
    }

    // ---- rebalancing below a replaced item ----

    lemma {:induction false} CutOut(inner: Ctx<Item<V>>, outer: Ctx<Item<V>>, t: Tree<Item<V>>)
      requires Cut(Join(inner, outer), t)
      ensures Cut(outer, Plug(inner, t))
      decreases inner
    {
      if !inner.Top? {
        CutUp(Join(inner, outer), t);
        CutOut(inner.up, outer, Grown(inner, t));
      }
    }

    /** The height a context with the hole's sibling expects above a hole of height `h`. */
    static function Expected(outer: Ctx<Item<V>>, h: nat): nat
      requires !outer.Top?
    {
      1 + Higher(h, Height(Sibling(outer)))
    }

    /**
     Everything is in order but for the height of the hole, which `inner` takes to be `h`, and
     the item of `outer`, which was moved there and still caches the height of its old place.
     */
    ghost predicate Stale(inner: Ctx<Item<V>>, outer: Ctx<Item<V>>, t: Tree<Item<V>>, h: nat)
      reads this, CtxItems(Join(inner, outer)), CtxItems(inner), CtxItems(outer), Items(t)
    {
      && !outer.Top? && Cut(Join(inner, outer), t) && Cached(t) && Balanced(t)
      && CtxCached(inner, h) && CtxBalanced(inner, h) && -1 <= Height(t) - h <= 1
      && Cached(Sibling(outer)) && CtxCached(outer.up, Expected(outer, PlugHeight(inner, h)))
      && CtxBalanced(outer, PlugHeight(inner, h))
    }

    static lemma CachedParent(c: Ctx<Item<V>>, h: nat)
      requires !c.Top? && CtxCached(c, h)
      ensures c.item.height == 1 + Higher(h, Height(Sibling(c))) && Cached(Sibling(c)) && CtxCached(c.up, c.item.height)
    {
    }

    lemma StaleHeights(inner: Ctx<Item<V>>, outer: Ctx<Item<V>>, t: Tree<Item<V>>, h: nat)
      requires !inner.Top? && Stale(inner, outer, t, h)
      ensures var g, k := Grown(inner, t), inner.item.height;
              && NearlyBalanced(g) && Cached(g.left) && Cached(g.right)
              && CtxCached(inner.up, k) && CtxBalanced(inner.up, k) && PlugHeight(inner.up, k) == PlugHeight(inner, h)
              && -1 <= Height(Rebalance(g)) - k <= 1 && Balanced(Rebalance(g))
    {
      hide Cut, Rebalance, NearlyBalanced, Cached, CtxCached, AvlShape.Join, AvlShape.Balanced, AvlShape.PlugHeight, AvlShape.CtxBalanced;
      CachedParent(inner, h);
      GrowBalance(inner, t, h);
    }

    /** What a turn of the loop needs of the item it starts from, and the contexts it leaves alone. */
    lemma TurnReady(inner: Ctx<Item<V>>, outer: Ctx<Item<V>>, t: Tree<Item<V>>, h: nat)
      requires Stale(inner, outer, t, h)
      ensures var full := Join(inner, outer); var g := Grown(full, t);
              && Cut(full.up, g) && NearlyBalanced(g) && Cached(g.left) && Cached(g.right)
              && All(full.up, g) == All(full, t) && g.item == full.item
      ensures !inner.Top? ==> Join(inner, outer).up == Join(inner.up, outer)
                              && CtxItems(inner.up) + Items(Sibling(outer)) + CtxItems(outer.up) <= CtxItems(Join(inner, outer).up)
                              && CtxCached(inner.up, inner.item.height)
    {
      var full := Join(inner, outer);
      GrownItems(full, t);
      CutUp(full, t);
      if inner.Top? {
        GrowBalance(outer, t, h);
      } else {
        StaleHeights(inner, outer, t, h);
        JoinParts(inner.up, outer);
      }
    }

    /** The heights around a turn: a context, a sibling and a further context. */
    twostate lemma KeepAround(z: (Ctx<Item<V>>, nat, Tree<Item<V>>, Ctx<Item<V>>, nat))
      requires old(CtxCached(z.0, z.1)) && old(Cached(z.2)) && old(CtxCached(z.3, z.4))
      requires SameHeights(CtxItems(z.0)) && SameHeights(Items(z.2)) && SameHeights(CtxItems(z.3))
      ensures CtxCached(z.0, z.1) && Cached(z.2) && CtxCached(z.3, z.4)
    {
      KeepCtxCached((z.0, z.1));
      KeepCached(z.2);
      KeepCtxCached((z.3, z.4));
    }

    /** The same, with a context, a subtree and another context above whose heights it leaves alone. */
    method TurnAt(parent: Item<V>, ghost full: Ctx<Item<V>>, ghost t: Tree<Item<V>>,
                  ghost a: Ctx<Item<V>>, ghost k: nat, ghost s: Tree<Item<V>>, ghost b: Ctx<Item<V>>, ghost e: nat)
      returns (top: Item<V>)
      requires !full.Top? && parent == full.item && Cut(full.up, Grown(full, t))
      requires var g := Grown(full, t); NearlyBalanced(g) && Cached(g.left) && Cached(g.right)
      requires All(full.up, Grown(full, t)) == All(full, t)
      requires CtxItems(a) + Items(s) + CtxItems(b) <= CtxItems(full.up)
      requires CtxCached(a, k) && Cached(s) && CtxCached(b, e)
      modifies this`root, All(full, t)`left, All(full, t)`right, All(full, t)`parent
      modifies Items(Grown(full, t))`height, Items(Grown(full, t))`slope
      ensures var u := Rebalance(Grown(full, t)); top == u.item && top.height == Height(u) && Cut(full.up, u) && Cached(u)
      ensures CtxCached(a, k) && Cached(s) && CtxCached(b, e)
    {
      hide Cut, AvlShape.Items, AvlShape.CtxItems, Balanced;
      ghost var g := Grown(full, t);
      CutApart(full.up, g);
      assert allocated(CtxItems(a)) && allocated(Items(s)) && allocated(CtxItems(b));
      RebalanceWorks(g);
      top := Refresh(parent, full.up, g);
      KeepAround((a, k, s, b, e));
    }

    lemma StillStale(inner: Ctx<Item<V>>, outer: Ctx<Item<V>>, t: Tree<Item<V>>, h: nat, k: nat)
      requires !inner.Top? && !outer.Top? && Balanced(t) && CtxBalanced(inner, h) && -1 <= Height(t) - h <= 1
      requires NearlyBalanced(Grown(inner, t)) && k == 1 + Higher(h, Height(Sibling(inner)))
      requires Cut(Join(inner.up, outer), Rebalance(Grown(inner, t))) && Cached(Rebalance(Grown(inner, t)))
      requires CtxCached(inner.up, k) && Cached(Sibling(outer))
      requires CtxCached(outer.up, Expected(outer, PlugHeight(inner, h))) && CtxBalanced(outer, PlugHeight(inner, h))
      ensures Stale(inner.up, outer, Rebalance(Grown(inner, t)), k)
    {
      GrowBalance(inner, t, h);
    }

    lemma NowPending(outer: Ctx<Item<V>>, t: Tree<Item<V>>, h: nat)
      requires !outer.Top? && Balanced(t) && CtxBalanced(outer, h) && -1 <= Height(t) - h <= 1
      requires NearlyBalanced(Grown(outer, t))
      requires Cut(outer.up, Rebalance(Grown(outer, t))) && Cached(Rebalance(Grown(outer, t)))
      requires CtxCached(outer.up, Expected(outer, h))
      ensures Pending(outer.up, Rebalance(Grown(outer, t)), Expected(outer, h))
    {
      hide Cut, Rebalance, NearlyBalanced, Cached, CtxCached, AvlShape.Balanced, AvlShape.PlugHeight, AvlShape.CtxBalanced;
      GrowBalance(outer, t, h);
    }

    /** One turn of the loop below `rebalParent`, at an item below the moved one or at the moved one. */
    method Turn(parent: Item<V>, ghost inner: Ctx<Item<V>>, ghost outer: Ctx<Item<V>>, ghost t: Tree<Item<V>>, ghost h: nat)
      returns (top: Item<V>)
      requires Stale(inner, outer, t, h) && parent == Join(inner, outer).item
      modifies this`root, All(Join(inner, outer), t)`left, All(Join(inner, outer), t)`right, All(Join(inner, outer), t)`parent
      modifies Items(Grown(Join(inner, outer), t))`height, Items(Grown(Join(inner, outer), t))`slope
      ensures NearlyBalanced(Grown(Join(inner, outer), t))
      ensures var u := Rebalance(Grown(Join(inner, outer), t)); top == u.item && top.height == Height(u)
      ensures !inner.Top? ==> Stale(inner.up, outer, Rebalance(Grown(inner, t)), old(parent.height))
      ensures inner.Top? ==> Pending(outer.up, Rebalance(Grown(outer, t)), Expected(outer, h))
    {
      TurnReady(inner, outer, t, h);
      ghost var e := Expected(outer, PlugHeight(inner, h));
      ghost var k := parent.height;
      ghost var a, s := Top, Leaf;
      if !inner.Top? { a, s := inner.up, Sibling(outer); }
      assert inner.Top? || k == 1 + Higher(h, Height(Sibling(inner)));
      top := TurnAt(parent, Join(inner, outer), t, a, if inner.Top? then 0 else k, s, outer.up, e);
      if inner.Top? { NowPending(outer, t, h); } else { StillStale(inner, outer, t, h, k); }
    }

    /** The subtree of the moved item when an item below it has kept its height. */
    static ghost function Jumped(inner: Ctx<Item<V>>, outer: Ctx<Item<V>>, t: Tree<Item<V>>): Tree<Item<V>>
      requires !outer.Top?
    {
      Grown(outer, Plug(inner, t))
    }

    lemma JumpReady(inner: Ctx<Item<V>>, outer: Ctx<Item<V>>, t: Tree<Item<V>>, h: nat)
      requires Stale(inner, outer, t, h) && Height(t) == h
      ensures var x := Jumped(inner, outer, t);
              && Cut(outer.up, x) && Cached(x.left) && Cached(x.right) && Balanced(x)
              && Height(x) == Expected(outer, PlugHeight(inner, h))
              && CtxCached(outer.up, Height(x)) && CtxBalanced(outer.up, Height(x))
    {
      JumpBalanced(inner, outer, t);
      CutOut(inner, outer, t);
      PlugCached(inner, t);
      CutUp(outer, Plug(inner, t));
    }

    static lemma JumpBalanced(inner: Ctx<Item<V>>, outer: Ctx<Item<V>>, t: Tree<Item<V>>)
      requires !outer.Top? && Balanced(t) && CtxBalanced(inner, Height(t)) && CtxBalanced(outer, PlugHeight(inner, Height(t)))
      ensures var x := Jumped(inner, outer, t);
              && Balanced(x) && Height(x) == Expected(outer, PlugHeight(inner, Height(t)))
              && CtxBalanced(outer.up, Height(x))
    {
      hide AvlShape.CtxBalanced, AvlShape.PlugHeight, AvlShape.Plug, AvlShape.Balanced, AvlShape.Height;
      PlugBalanced(inner, t);
      HeightOfPlug(inner, t);
      CtxBalancedUp(outer, PlugHeight(inner, Height(t)));
      GrownBalanced(outer, Plug(inner, t));
    }

    lemma JumpOrder(inner: Ctx<Item<V>>, outer: Ctx<Item<V>>, t: Tree<Item<V>>)
      requires !outer.Top?
      ensures var x, full := Jumped(inner, outer, t), Join(inner, outer);
              && All(outer.up, x) == All(full, t)
              && Before(outer.up) + InOrder(x) + After(outer.up) == Before(full) + InOrder(t) + After(full)
    {
      hide AvlShape.Plug, AvlShape.InOrder, AvlShape.Items, AvlShape.CtxItems, AvlShape.Before, AvlShape.After, AvlShape.Join;
      JoinParts(inner, outer);
      PlugOrder(inner, t);
      GrownItems(outer, Plug(inner, t));
      var w := InOrder(Plug(inner, t));
      assert Before(outer) + (Before(inner) + InOrder(t) + After(inner)) + After(outer)
          == (Before(outer) + Before(inner)) + InOrder(t) + (After(inner) + After(outer));
    }

    /** `parent = *cell`, brought up to date; nothing is left to rebalance there. */
    method Jump(cell: Cell<V>, ghost c: Ctx<Item<V>>, ghost x: Tree<Item<V>>, ghost h: nat) returns (parent: Item?<V>)
      requires cell == CellOf(c) && Cut(c, x) && x.Node? && Cached(x.left) && Cached(x.right) && Balanced(x)
      requires CtxCached(c, h) && CtxBalanced(c, h) && -1 <= Height(x) - h <= 1
      modifies this`root, All(c, x)`left, All(c, x)`right, All(c, x)`parent, Items(x)`height, Items(x)`slope
      ensures parent == Parent(c) && Pending(c, x, h)
    {
      assert allocated(CtxItems(c)) && Items(x) !! CtxItems(c);
      var top := Refresh(Load(cell), c, x);
      KeepCtxCached((c, h));
      parent := top.parent;
    }

    /** The situation of `Stale`, for a fixed order and set of items. */
    ghost predicate Below(inner: Ctx<Item<V>>, outer: Ctx<Item<V>>, t: Tree<Item<V>>, h: nat, e: nat, order: seq<Item<V>>, all: set<Item<V>>)
      reads this, CtxItems(Join(inner, outer)), CtxItems(inner), CtxItems(outer), Items(t)
    {
      && Stale(inner, outer, t, h) && PlugHeight(inner, h) == e && All(Join(inner, outer), t) == all
      && Before(Join(inner, outer)) + InOrder(t) + After(Join(inner, outer)) == order
    }

    /** The situation of `Pending`, likewise. */
    ghost predicate Above(c: Ctx<Item<V>>, t: Tree<Item<V>>, h: nat, order: seq<Item<V>>, all: set<Item<V>>)
      reads this, All(c, t)`left, All(c, t)`right, All(c, t)`parent, All(c, t)`height, All(c, t)`slope
    {
      Pending(c, t, h) && All(c, t) == all && Before(c) + InOrder(t) + After(c) == order
    }

    /** The old parent of the removed item is not below it. */
    lemma NotBelow(inner: Ctx<Item<V>>, outer: Ctx<Item<V>>, t: Tree<Item<V>>, h: nat)
      requires Stale(inner, outer, t, h)
      ensures Join(inner, outer).item != Parent(outer.up)
    {
      if !inner.Top? { JoinParts(inner.up, outer); }
    }

    lemma TurnKeeps(inner: Ctx<Item<V>>, outer: Ctx<Item<V>>, t: Tree<Item<V>>, h: nat)
      requires Stale(inner, outer, t, h)
      ensures var full := Join(inner, outer); var g := Grown(full, t);
              && NearlyBalanced(g) && Rebalance(g).Node? && All(full.up, Rebalance(g)) == All(full, t)
              && Before(full.up) + InOrder(Rebalance(g)) + After(full.up) == Before(full) + InOrder(t) + After(full)
      ensures !inner.Top? ==> PlugHeight(inner.up, inner.item.height) == PlugHeight(inner, h)
    {
      TurnReady(inner, outer, t, h);
      GrownItems(Join(inner, outer), t);
      RebalanceKeepsItems(Grown(Join(inner, outer), t));
      if !inner.Top? { StaleHeights(inner, outer, t, h); }
    }

    method TurnStep(item: Item<V>, ghost inner: Ctx<Item<V>>, ghost outer: Ctx<Item<V>>, ghost t: Tree<Item<V>>,
                    ghost h: nat, ghost e: nat, ghost order: seq<Item<V>>, ghost all: set<Item<V>>)
      returns (parent: Item<V>, ghost v: Tree<Item<V>>)
      requires Below(inner, outer, t, h, e, order, all) && item == Join(inner, outer).item
      modifies this`root, all`left, all`right, all`parent, all`height, all`slope
      ensures v.Node? && parent == v.item && parent.height == Height(v)
      ensures inner.Top? ==> Above(outer.up, v, Expected(outer, e), order, all)
      ensures !inner.Top? ==> Below(inner.up, outer, v, old(item.height), e, order, all)
    {
      TurnKeeps(inner, outer, t, h);
      v := Rebalance(Grown(Join(inner, outer), t));
      parent := Turn(item, inner, outer, t, h);
    }

    lemma JumpTarget(inner: Ctx<Item<V>>, outer: Ctx<Item<V>>, t: Tree<Item<V>>,
                     h: nat, e: nat, order: seq<Item<V>>, all: set<Item<V>>)
      requires Below(inner, outer, t, h, e, order, all) && Height(t) == h
      ensures var x, c := Jumped(inner, outer, t), outer.up;
              && Cut(c, x) && x.Node? && Cached(x.left) && Cached(x.right) && Balanced(x)
              && Height(x) == Expected(outer, e) && CtxCached(c, Expected(outer, e)) && CtxBalanced(c, Expected(outer, e))
              && All(c, x) == all && Before(c) + InOrder(x) + After(c) == order
    {
      JumpReady(inner, outer, t, h);
      JumpOrder(inner, outer, t);
    }

    /**
     The body of the loop at `rebalParent` in `remove`. When the item keeps its height (`done`) it
     jumps to the moved item through the cell.
     */
    method TurnOrJump(item: Item<V>, cell: Cell<V>, ghost inner: Ctx<Item<V>>, ghost outer: Ctx<Item<V>>, ghost t: Tree<Item<V>>,
                      ghost h: nat, ghost e: nat, ghost order: seq<Item<V>>, ghost all: set<Item<V>>)
      returns (parent: Item?<V>, done: bool, ghost v: Tree<Item<V>>)
      requires Below(inner, outer, t, h, e, order, all) && item == Join(inner, outer).item && cell == CellOf(outer.up)
      modifies this`root, all`left, all`right, all`parent, all`height, all`slope
      ensures done || inner.Top? ==> parent == Parent(outer.up) && Above(outer.up, v, Expected(outer, e), order, all)
      ensures !done && !inner.Top? ==>
                parent == Join(inner.up, outer).item && Below(inner.up, outer, v, old(item.height), e, order, all)
    {
      var oldHeight := item.height;
      parent, v := TurnStep(item, inner, outer, t, h, e, order, all);
      done := oldHeight == parent.height;
      if done {
        if !inner.Top? {
          JumpTarget(inner.up, outer, v, oldHeight, e, order, all);
          v := Jumped(inner.up, outer, v);
        }
        parent := Jump(cell, outer.up, v, Expected(outer, e));
      } else {
        parent := parent.parent;
      }
    }

    /**
     The loop at `rebalParent` in `remove`, from the item that lost a child up to the item that was
     moved into the removed one's place. It ends with the removed item's old parent.
     */
    method RebalanceReplaced(start: Item<V>, cell: Cell<V>, origParent: Item?<V>,
                             ghost inner0: Ctx<Item<V>>, ghost outer: Ctx<Item<V>>, ghost t0: Tree<Item<V>>, ghost h0: nat,
                             ghost e: nat, ghost order: seq<Item<V>>, ghost all: set<Item<V>>)
      returns (parent: Item?<V>, ghost t: Tree<Item<V>>)
      requires Below(inner0, outer, t0, h0, e, order, all) && start == Join(inner0, outer).item
      requires cell == CellOf(outer.up) && origParent == Parent(outer.up)
      modifies this`root, all`left, all`right, all`parent, all`height, all`slope
      ensures parent == origParent && Above(outer.up, t, Expected(outer, e), order, all)
    {
      parent := start;
      t := t0;
      ghost var inner, h := inner0, h0;
      while true
        invariant Below(inner, outer, t, h, e, order, all) && parent == Join(inner, outer).item
        decreases inner
      {
        ghost var oldHeight := parent.height;
        var done;
        parent, done, t := TurnOrJump(parent, cell, inner, outer, t, h, e, order, all);
        if done {
          break;
        }
        if !inner.Top? {
          NotBelow(inner.up, outer, t, oldHeight);
        }
        if parent == origParent {
          break;
        }
        inner, h := inner.up, oldHeight;
      }
    }

    // ---- cutting a whole tree ----

    lemma {:induction false} UnplugCut(c: Ctx<Item<V>>, t: Tree<Item<V>>)
      requires Cut(Top, Plug(c, t))
      ensures Cut(c, t)
      decreases c
    {
      match c
      case Top =>
      case InLeft(up, x, r) =>
        UnplugCut(up, Node(t, x, r));
        CutLeft(up, Node(t, x, r));
      case InRight(l, x, up) =>
        UnplugCut(up, Node(l, x, t));
        CutRight(up, Node(l, x, t));
    }

    lemma {:induction false} UnplugCached(c: Ctx<Item<V>>, t: Tree<Item<V>>)
      requires Cached(Plug(c, t))
      ensures Cached(t) && CtxCached(c, Height(t))
      decreases c
    {
      match c
      case Top =>
      case InLeft(up, x, r) => UnplugCached(up, Node(t, x, r));
      case InRight(l, x, up) => UnplugCached(up, Node(l, x, t));
    }

    lemma WholeCut(c: Ctx<Item<V>>, t: Tree<Item<V>>)
      requires Whole(Plug(c, t))
      ensures Cut(c, t) && Cached(t) && Balanced(t) && CtxCached(c, Height(t)) && CtxBalanced(c, Height(t))
    {
      UnplugCut(c, t);
      UnplugCached(c, t);
      UnplugBalanced(c, t);
    }

    // ---- taking an item out of the tree ----

    /** The subtree `u` of `t` moves up into the cell of `t`. */
    method Splice(cell: Cell<V>, parent: Item?<V>, x: Item?<V>, ghost c: Ctx<Item<V>>, ghost t: Tree<Item<V>>, ghost u: Tree<Item<V>>)
      requires Cut(c, t) && t.Node? && (u == t.left || u == t.right)
      requires cell == CellOf(c) && parent == Parent(c) && x == Root(u)
      modifies this`root, CellItem(cell)`left, CellItem(cell)`right, Single(x)`parent
      ensures Cut(c, u)
    {
      hide AvlShape.Items, AvlShape.CtxItems;
      ghost var rest := SpliceRest(c, t, u);
      assert Linked(u, t.item);
      SplicePure(c, t, u);
      assert allocated(rest);
      Store(cell, x);
      if x != null {
        x.parent := parent;
      }
      assert SameLinks(rest);
      StoredCtx(c);
      MovedLinked(u);
    }

    static ghost function SpliceRest(c: Ctx<Item<V>>, t: Tree<Item<V>>, u: Tree<Item<V>>): set<Item<V>> {
      Items(u) + CtxItems(c) - Single(Root(u)) - CellItem(CellOf(c))
    }

    static lemma SplicePure(c: Ctx<Item<V>>, t: Tree<Item<V>>, u: Tree<Item<V>>)
      requires Apart(c, t) && t.Node? && (u == t.left || u == t.right)
      ensures Apart(c, u)
      ensures var rest := SpliceRest(c, t, u);
              && (u.Node? ==> Items(u.left) <= rest && Items(u.right) <= rest)
              && (c.InLeft? ==> CtxItems(c.up) <= rest && Items(c.right) <= rest)
              && (c.InRight? ==> CtxItems(c.up) <= rest && Items(c.left) <= rest)
              && rest !! Single(Root(u)) + CellItem(CellOf(c)) && Single(Root(u)) !! CellItem(CellOf(c))
    {
    }

    /** All but the holder of the cell and the roots of the two subtrees. */
    static ghost function TakeOverRest(c: Ctx<Item<V>>, l: Tree<Item<V>>, r: Tree<Item<V>>): set<Item<V>> {
      Items(l) + Items(r) + CtxItems(c) - Single(Root(l)) - Single(Root(r)) - CellItem(CellOf(c))
    }

    static lemma TakeOverSub(c: Ctx<Item<V>>, l: Tree<Item<V>>, item: Item<V>, r: Tree<Item<V>>)
      requires Apart(c, Node(l, item, r))
      ensures var rest := TakeOverRest(c, l, r);
              && (l.Node? ==> Items(l.left) <= rest && Items(l.right) <= rest)
              && (r.Node? ==> Items(r.left) <= rest && Items(r.right) <= rest)
    {
      assert Proper(l) && Proper(r);
      assert l.Node? ==> Items(l.left) <= Items(l) && Items(l.right) <= Items(l) && l.item !in Items(l.left) && l.item !in Items(l.right);
      assert r.Node? ==> Items(r.left) <= Items(r) && Items(r.right) <= Items(r) && r.item !in Items(r.left) && r.item !in Items(r.right);
      assert Single(Root(l)) <= Items(l) && Single(Root(r)) <= Items(r) && CellItem(CellOf(c)) <= CtxItems(c);
      assert Items(l) !! Items(r) && Items(l) !! CtxItems(c) && Items(r) !! CtxItems(c);
    }

    static lemma TakeOverCtx(c: Ctx<Item<V>>, l: Tree<Item<V>>, item: Item<V>, r: Tree<Item<V>>)
      requires Apart(c, Node(l, item, r))
      ensures var rest := TakeOverRest(c, l, r);
              && (c.InLeft? ==> CtxItems(c.up) <= rest && Items(c.right) <= rest)
              && (c.InRight? ==> CtxItems(c.up) <= rest && Items(c.left) <= rest)
    {
      assert Single(Root(l)) <= Items(l) && Single(Root(r)) <= Items(r);
    }

    static lemma TakeOverPure(c: Ctx<Item<V>>, l: Tree<Item<V>>, item: Item<V>, r: Tree<Item<V>>, next: Item<V>)
      requires Apart(c, Node(l, item, r)) && next !in Items(l) + Items(r) + CtxItems(c)
      ensures Apart(c, Node(l, next, r))
      ensures var rest := TakeOverRest(c, l, r);
              && rest !! Single(Root(l)) + Single(Root(r)) + CellItem(CellOf(c)) + {next}
              && CellItem(CellOf(c)) !! Single(Root(l)) + Single(Root(r)) + {next} && Single(Root(l)) !! Single(Root(r))
              && next !in Single(Root(l)) + Single(Root(r))
    {
      assert Single(Root(l)) <= Items(l) && Single(Root(r)) <= Items(r) && CellItem(CellOf(c)) <= CtxItems(c);
    }

    /** `next`, which is in no tree, takes the place of an item with two children. */
    method TakeOver(cell: Cell<V>, next: Item<V>, parent: Item?<V>, left: Item<V>, right: Item<V>,
                    ghost c: Ctx<Item<V>>, ghost t: Tree<Item<V>>)
      requires Cut(c, t) && t.Node? && next !in Items(t) + CtxItems(c)
      requires cell == CellOf(c) && parent == Parent(c) && Root(t.left) == left && Root(t.right) == right
      modifies this`root, CellItem(cell)`left, CellItem(cell)`right
      modifies next`parent, next`left, next`right, left`parent, right`parent
      ensures Cut(c, Node(t.left, next, t.right))
    {
      hide AvlShape.Items, AvlShape.CtxItems;
      ghost var l, r := t.left, t.right;
      ghost var rest := TakeOverRest(c, l, r);
      TakeOverReady(c, t, next);
      assert allocated(rest);
      Store(cell, next);
      next.parent := parent;
      next.left := left;
      left.parent := next;
      next.right := right;
      right.parent := next;
      assert SameLinks(rest);
      StoredCtx(c);
      MovedLinked(l);
      MovedLinked(r);
    }

    lemma TakeOverReady(c: Ctx<Item<V>>, t: Tree<Item<V>>, next: Item<V>)
      requires Cut(c, t) && t.Node? && next !in Items(t) + CtxItems(c)
      ensures Linked(t.left, t.item) && Linked(t.right, t.item) && CtxLinked(c) && CtxProper(c)
      ensures Apart(c, Node(t.left, next, t.right))
      ensures var l, r := t.left, t.right; var rest := TakeOverRest(c, l, r);
              && (l.Node? ==> Items(l.left) <= rest && Items(l.right) <= rest)
              && (r.Node? ==> Items(r.left) <= rest && Items(r.right) <= rest)
              && (c.InLeft? ==> CtxItems(c.up) <= rest && Items(c.right) <= rest)
              && (c.InRight? ==> CtxItems(c.up) <= rest && Items(c.left) <= rest)
              && rest !! Single(Root(l)) + Single(Root(r)) + CellItem(CellOf(c)) + {next}
              && CellItem(CellOf(c)) !! Single(Root(l)) + Single(Root(r)) + {next} && Single(Root(l)) !! Single(Root(r))
              && next !in Single(Root(l)) + Single(Root(r))
    {
      TakeOverSub(c, t.left, t.item, t.right);
      TakeOverCtx(c, t.left, t.item, t.right);
      TakeOverPure(c, t.left, t.item, t.right, next);
    }

    /** The same when `next` is the root of the right subtree and has no left child. */
    method TakeOverFromRight(cell: Cell<V>, next: Item<V>, parent: Item?<V>, left: Item<V>,
                             ghost c: Ctx<Item<V>>, ghost t: Tree<Item<V>>)
      requires Cut(c, t) && t.Node? && t.right.Node? && t.right.left.Leaf? && t.right.item == next
      requires cell == CellOf(c) && parent == Parent(c) && Root(t.left) == left
      modifies this`root, CellItem(cell)`left, CellItem(cell)`right
      modifies next`parent, next`left, left`parent
      ensures Cut(c, Node(t.left, next, t.right.right))
    {
      hide AvlShape.Items, AvlShape.CtxItems;
      ghost var l, r := t.left, t.right.right;
      ghost var rest := TakeOverRest(c, l, r) + Items(r);
      FromRightReady(c, t);
      assert allocated(TakeOverRest(c, l, r)) && allocated(Items(r));
      Store(cell, next);
      next.parent := parent;
      next.left := left;
      left.parent := next;
      assert SameLinks(rest);
      StoredCtx(c);
      MovedLinked(l);
      KeepLinked(r);
    }

    lemma FromRightReady(c: Ctx<Item<V>>, t: Tree<Item<V>>)
      requires Cut(c, t) && t.Node? && t.right.Node? && t.right.left.Leaf?
      ensures var l, next, r := t.left, t.right.item, t.right.right;
              && Linked(l, t.item) && Linked(r, next) && CtxLinked(c) && CtxProper(c) && next.right == Root(r)
              && Apart(c, Node(l, next, r))
      ensures var l, r, next := t.left, t.right.right, t.right.item; var rest := TakeOverRest(c, l, r) + Items(r);
              && (l.Node? ==> Items(l.left) <= rest && Items(l.right) <= rest)
              && (c.InLeft? ==> CtxItems(c.up) <= rest && Items(c.right) <= rest)
              && (c.InRight? ==> CtxItems(c.up) <= rest && Items(c.left) <= rest)
              && rest !! Single(Root(l)) + CellItem(CellOf(c)) + {next}
              && CellItem(CellOf(c)) !! Single(Root(l)) + {next} && next !in Single(Root(l))
    {
      var l, next, r := t.left, t.right.item, t.right.right;
      assert Linked(t.right, t.item) && Proper(t.right);
      assert Items(t.right) == {next} + Items(r);
      assert Apart(c, Node(l, t.item, r));
      TakeOverSub(c, l, t.item, r);
      TakeOverCtx(c, l, t.item, r);
      TakeOverPure(c, l, t.item, r, next);
      assert Single(Root(l)) <= Items(l) && CellItem(CellOf(c)) <= CtxItems(c);
    }

    /** The same when `prev` is the root of the left subtree and has no right child. */
    method TakeOverFromLeft(cell: Cell<V>, prev: Item<V>, parent: Item?<V>, right: Item<V>,
                            ghost c: Ctx<Item<V>>, ghost t: Tree<Item<V>>)
      requires Cut(c, t) && t.Node? && t.left.Node? && t.left.right.Leaf? && t.left.item == prev
      requires cell == CellOf(c) && parent == Parent(c) && Root(t.right) == right
      modifies this`root, CellItem(cell)`left, CellItem(cell)`right
      modifies prev`parent, prev`right, right`parent
      ensures Cut(c, Node(t.left.left, prev, t.right))
    {
      hide AvlShape.Items, AvlShape.CtxItems;
      ghost var l, r := t.left.left, t.right;
      ghost var rest := TakeOverRest(c, l, r) + Items(l);
      FromLeftReady(c, t);
      assert allocated(TakeOverRest(c, l, r)) && allocated(Items(l));
      Store(cell, prev);
      prev.parent := parent;
      prev.right := right;
      right.parent := prev;
      assert SameLinks(rest);
      StoredCtx(c);
      MovedLinked(r);
      KeepLinked(l);
    }

    lemma FromLeftReady(c: Ctx<Item<V>>, t: Tree<Item<V>>)
      requires Cut(c, t) && t.Node? && t.left.Node? && t.left.right.Leaf?
      ensures var l, prev, r := t.left.left, t.left.item, t.right;
              && Linked(r, t.item) && Linked(l, prev) && CtxLinked(c) && CtxProper(c) && prev.left == Root(l)
              && Apart(c, Node(l, prev, r))
      ensures var l, r, prev := t.left.left, t.right, t.left.item; var rest := TakeOverRest(c, l, r) + Items(l);
              && (r.Node? ==> Items(r.left) <= rest && Items(r.right) <= rest)
              && (c.InLeft? ==> CtxItems(c.up) <= rest && Items(c.right) <= rest)
              && (c.InRight? ==> CtxItems(c.up) <= rest && Items(c.left) <= rest)
              && rest !! Single(Root(r)) + CellItem(CellOf(c)) + {prev}
              && CellItem(CellOf(c)) !! Single(Root(r)) + {prev} && prev !in Single(Root(r))
    {
      var l, prev, r := t.left.left, t.left.item, t.right;
      assert Linked(t.left, t.item) && Proper(t.left);
      assert Items(t.left) == Items(l) + {prev};
      assert Apart(c, Node(l, t.item, r));
      TakeOverSub(c, l, t.item, r);
      TakeOverCtx(c, l, t.item, r);
      TakeOverPure(c, l, t.item, r, prev);
      assert Single(Root(r)) <= Items(r) && CellItem(CellOf(c)) <= CtxItems(c);
    }

    // ---- an item with two children is replaced by a neighbour ----

    lemma {:induction false} CutIn(inner: Ctx<Item<V>>, outer: Ctx<Item<V>>, t: Tree<Item<V>>)
      requires Cut(outer, Plug(inner, t))
      ensures Cut(Join(inner, outer), t)
      decreases inner
    {
      if !inner.Top? {
        var g := Grown(inner, t);
        CutIn(inner.up, outer, g);
        if inner.InLeft? { CutLeft(Join(inner.up, outer), g); } else { CutRight(Join(inner.up, outer), g); }
      }
    }

    /** The heights around the neighbour `x`, whose subtree with one child `u` is cut out of a subtree at `inner`. */
    lemma NeighbourHeights(c: Ctx<Item<V>>, t: Tree<Item<V>>, outer: Ctx<Item<V>>, inner: Ctx<Item<V>>, s: Tree<Item<V>>, u: Tree<Item<V>>)
      requires Pending(c, t, Height(t)) && t.Node? && !outer.Top? && outer.up == c && s.Node?
      requires (outer.InRight? && Sibling(outer) == t.left && t.right == Plug(inner, s))
            || (outer.InLeft? && Sibling(outer) == t.right && t.left == Plug(inner, s))
      requires (u == s.left && s.right.Leaf?) || (u == s.right && s.left.Leaf?)
      ensures Cached(u) && Balanced(u) && CtxCached(inner, Height(s)) && CtxBalanced(inner, Height(s))
      ensures Height(u) == Height(s) - 1 && PlugHeight(inner, Height(s)) == Height(if outer.InRight? then t.right else t.left)
      ensures Cached(Sibling(outer)) && CtxBalanced(outer, PlugHeight(inner, Height(s)))
      ensures Expected(outer, PlugHeight(inner, Height(s))) == Height(t)
    {
      UnplugCached(inner, s);
      UnplugBalanced(inner, s);
      HeightOfPlug(inner, s);
    }

    static lemma {:induction false} PlugRoot(c: Ctx<Item<V>>, a: Tree<Item<V>>, b: Tree<Item<V>>)
      requires !c.Top?
      ensures Root(Plug(c, a)) == Root(Plug(c, b)) && Plug(c, a).Node?
      decreases c
    {
      if !c.up.Top? { PlugRoot(c.up, Grown(c, a), Grown(c, b)); }
    }

    /** What cutting `s` down to `u` leaves of a subtree. */
    static lemma CutDownItems(inner: Ctx<Item<V>>, s: Tree<Item<V>>, u: Tree<Item<V>>)
      requires s.Node? && Proper(Plug(inner, s)) && ((u == s.left && s.right.Leaf?) || (u == s.right && s.left.Leaf?))
      ensures Items(Plug(inner, s)) == Items(Plug(inner, u)) + {s.item} && s.item !in Items(Plug(inner, u))
    {
      PlugOrder(inner, s);
      PlugOrder(inner, u);
      PlugProper(inner, s);
    }

    /** The next item, deeper down on the right, is unlinked and put in the removed item's place. */
    method MoveNext(item: Item<V>, next: Item<V>, nextParent: Item<V>, cell: Cell<V>, parent: Item?<V>, left: Item<V>, right: Item<V>,
                    ghost c: Ctx<Item<V>>, ghost t: Tree<Item<V>>, ghost inner: Ctx<Item<V>>, ghost u: Tree<Item<V>>)
      requires Cut(c, t) && t.Node? && t.item == item && t.right == Plug(inner, Node(Leaf, next, u))
      requires inner.InLeft? && inner.item == nextParent
      requires cell == CellOf(c) && parent == Parent(c) && Root(t.left) == left && Root(t.right) == right
      modifies this`root, All(c, t)`left, All(c, t)`right, All(c, t)`parent
      ensures Cut(Join(inner, InRight(t.left, next, c)), u)
    {
      ghost var s, k := Node(Leaf, next, u), InRight(t.left, item, c);
      CutRight(c, t);
      CutIn(inner, k, s);
      CutDownItems(inner, s, u);
      PlugRoot(inner, s, u);
      JoinParts(inner, k);
      PlugOrder(inner, s);
      assert Linked(s, nextParent) && Root(u) == next.right;
      var nextRight := next.right;
      Splice(AtLeft(nextParent), nextParent, nextRight, Join(inner, k), s, u);
      ghost var t' := Node(t.left, item, Plug(inner, u));
      CutOut(inner, k, u);
      CutRight(c, t');
      TakeOver(cell, next, parent, left, right, c, t');
      CutRight(c, Node(t.left, next, Plug(inner, u)));
      CutIn(inner, InRight(t.left, next, c), u);
    }

    /** The previous item, deeper down on the left, likewise. */
    method MovePrev(item: Item<V>, prev: Item<V>, prevParent: Item<V>, cell: Cell<V>, parent: Item?<V>, left: Item<V>, right: Item<V>,
                    ghost c: Ctx<Item<V>>, ghost t: Tree<Item<V>>, ghost inner: Ctx<Item<V>>, ghost u: Tree<Item<V>>)
      requires Cut(c, t) && t.Node? && t.item == item && t.left == Plug(inner, Node(u, prev, Leaf))
      requires inner.InRight? && inner.item == prevParent
      requires cell == CellOf(c) && parent == Parent(c) && Root(t.left) == left && Root(t.right) == right
      modifies this`root, All(c, t)`left, All(c, t)`right, All(c, t)`parent
      ensures Cut(Join(inner, InLeft(c, prev, t.right)), u)
    {
      ghost var s, k := Node(u, prev, Leaf), InLeft(c, item, t.right);
      CutLeft(c, t);
      CutIn(inner, k, s);
      CutDownItems(inner, s, u);
      PlugRoot(inner, s, u);
      JoinParts(inner, k);
      PlugOrder(inner, s);
      assert Linked(s, prevParent) && Root(u) == prev.left;
      var prevLeft := prev.left;
      Splice(AtRight(prevParent), prevParent, prevLeft, Join(inner, k), s, u);
      ghost var t' := Node(Plug(inner, u), item, t.right);
      CutOut(inner, k, u);
      CutLeft(c, t');
      TakeOver(cell, prev, parent, left, right, c, t');
      CutLeft(c, Node(Plug(inner, u), prev, t.right));
      CutIn(inner, InLeft(c, prev, t.right), u);
    }

    /** What the replacement of an item by its neighbour leaves to be rebalanced. */
    ghost predicate Replaced(c: Ctx<Item<V>>, t: Tree<Item<V>>, inner: Ctx<Item<V>>, outer: Ctx<Item<V>>, u: Tree<Item<V>>, h: nat)
      reads this, CtxItems(Join(inner, outer)), CtxItems(inner), CtxItems(outer), Items(u)
    {
      && t.Node? && !outer.Top? && outer.up == c && Expected(outer, PlugHeight(inner, h)) == Height(t)
      && Below(inner, outer, u, h, PlugHeight(inner, h), Before(c) + InOrder(t.left) + InOrder(t.right) + After(c), All(c, t) - {t.item})
    }

    /** The order and the items when the next item `s.item` replaces the item at the root of `t`. */
    static lemma NextOrder(c: Ctx<Item<V>>, t: Tree<Item<V>>, inner: Ctx<Item<V>>, s: Tree<Item<V>>)
      requires Apart(c, t) && t.Node? && s.Node? && s.left.Leaf? && t.right == Plug(inner, s) && Before(inner) == []
      ensures var full := Join(inner, InRight(t.left, s.item, c));
              && All(full, s.right) == All(c, t) - {t.item}
              && Before(full) + InOrder(s.right) + After(full) == Before(c) + InOrder(t.left) + InOrder(t.right) + After(c)
    {
      hide Plug, Proper, CtxProper;
      RootApart(c, t);
      var outer, l, x, u := InRight(t.left, s.item, c), t.left, s.item, s.right;
      JoinParts(inner, outer);
      PlugOrder(inner, s);
      assert Items(s) == {x} + Items(u) && InOrder(s) == [x] + InOrder(u);
      ReplacedItems(CtxItems(c), Items(l), t.item, Items(t.right), Items(t), x, Items(u), CtxItems(inner));
      SeqNext(Before(c), InOrder(l), x, InOrder(u), After(inner), After(c));
    }

    static lemma RootApart(c: Ctx<Item<V>>, t: Tree<Item<V>>)
      requires Apart(c, t) && t.Node?
      ensures t.item !in Items(t.left) && t.item !in Items(t.right) && t.item !in CtxItems(c)
    {
    }

    static lemma SeqNext<X>(a: seq<X>, b: seq<X>, x: X, d: seq<X>, e: seq<X>, f: seq<X>)
      ensures a + b + [x] + [] + d + (e + f) == a + b + ([] + ([x] + d) + e) + f
    {
    }

    static lemma SeqPrev<X>(a: seq<X>, b: seq<X>, d: seq<X>, x: X, e: seq<X>, f: seq<X>)
      ensures a + b + d + ([] + ([x] + e + f)) == a + (b + (d + [x]) + []) + e + f
    {
    }

    static lemma ReplacedItems<X>(c: set<X>, other: set<X>, item: X, side: set<X>, t: set<X>, x: X, u: set<X>, inner: set<X>)
      requires t == other + {item} + side && side == {x} + u + inner && item !in other + side + c
      ensures u + (inner + (other + {x} + c)) == t + c - {item}
    {
    }

    /** The same for the previous item. */
    static lemma PrevOrder(c: Ctx<Item<V>>, t: Tree<Item<V>>, inner: Ctx<Item<V>>, s: Tree<Item<V>>)
      requires Apart(c, t) && t.Node? && s.Node? && s.right.Leaf? && t.left == Plug(inner, s) && After(inner) == []
      ensures var full := Join(inner, InLeft(c, s.item, t.right));
              && All(full, s.left) == All(c, t) - {t.item}
              && Before(full) + InOrder(s.left) + After(full) == Before(c) + InOrder(t.left) + InOrder(t.right) + After(c)
    {
      hide Plug, Proper, CtxProper;
      RootApart(c, t);
      var outer, r, x, u := InLeft(c, s.item, t.right), t.right, s.item, s.left;
      JoinParts(inner, outer);
      PlugOrder(inner, s);
      assert Items(s) == {x} + Items(u) && InOrder(s) == InOrder(u) + [x];
      ReplacedItems(CtxItems(c), Items(r), t.item, Items(t.left), Items(t), x, Items(u), CtxItems(inner));
      SeqPrev(Before(c), Before(inner), InOrder(u), x, InOrder(r), After(c));
    }

    /** The parts of `Replaced` that a removal has to bring together. */
    lemma ReplacedParts(c: Ctx<Item<V>>, t: Tree<Item<V>>, inner: Ctx<Item<V>>, outer: Ctx<Item<V>>, u: Tree<Item<V>>, h: nat)
      requires t.Node? && !outer.Top? && outer.up == c && Expected(outer, PlugHeight(inner, h)) == Height(t)
      requires Cut(Join(inner, outer), u) && Cached(u) && Balanced(u) && Height(u) == h - 1
      requires CtxCached(inner, h) && CtxBalanced(inner, h) && Cached(Sibling(outer))
      requires CtxCached(c, Height(t)) && CtxBalanced(outer, PlugHeight(inner, h))
      requires All(Join(inner, outer), u) == All(c, t) - {t.item}
      requires Before(Join(inner, outer)) + InOrder(u) + After(Join(inner, outer))
               == Before(c) + InOrder(t.left) + InOrder(t.right) + After(c)
      ensures Replaced(c, t, inner, outer, u, h)
    {
    }

    /** The next item takes the place of an item with two children; the loop is to start at `start`. */
    method TakeNext(item: Item<V>, next: Item<V>, cell: Cell<V>, parent: Item?<V>, left: Item<V>, right: Item<V>,
                    ghost c: Ctx<Item<V>>, ghost t: Tree<Item<V>>)
      returns (start: Item<V>, ghost inner: Ctx<Item<V>>, ghost outer: Ctx<Item<V>>, ghost u: Tree<Item<V>>, ghost h: nat)
      requires Pending(c, t, Height(t)) && t.Node? && t.item == item && Root(t.left) == left && Root(t.right) == right
      requires cell == CellOf(c) && parent == Parent(c) && next == First(t.right, Top).1
      modifies this`root, All(c, t)`left, All(c, t)`right, All(c, t)`parent
      ensures Replaced(c, t, inner, outer, u, h) && start == Join(inner, outer).item
    {
      hide Cut, CtxLinked, Linked, CtxBalanced, CtxProper, Proper, Cached, CtxCached, Balanced, Replaced;
      inner, u := First(t.right, Top).0, First(t.right, Top).2;
      outer := InRight(t.left, next, c);
      ghost var s := Node(Leaf, next, u);
      h := Height(s);
      NeighbourHeights(c, t, outer, inner, s, u);
      CutApart(c, t);
      NextOrder(c, t, inner, s);
      NextParent(c, t, inner, u, next);
      assert allocated(Items(u)) && allocated(CtxItems(inner)) && allocated(Items(t.left)) && allocated(CtxItems(c));
      var nextParent := next.parent;
      if nextParent == item {
        TakeOverFromRight(cell, next, parent, left, c, t);
        FromRightCut(c, t, next);
        start := next;
      } else {
        MoveNext(item, next, nextParent, cell, parent, left, right, c, t, inner, u);
        start := nextParent;
      }
      KeepCached(u);
      KeepCtxCached((inner, h));
      KeepCached(t.left);
      KeepCtxCached((c, Height(t)));
      ReplacedParts(c, t, inner, outer, u, h);
    }

    /** How `remove` tells whether the next item is the right child. */
    lemma NextParent(c: Ctx<Item<V>>, t: Tree<Item<V>>, inner: Ctx<Item<V>>, u: Tree<Item<V>>, next: Item<V>)
      requires Cut(c, t) && t.Node? && t.right.Node? && First(t.right, Top) == (inner, next, u)
      ensures next.parent != null && (next.parent == t.item <==> inner.Top?)
      ensures inner.Top? ==> t.right == Node(Leaf, next, u)
      ensures !inner.Top? ==> inner.InLeft? && next.parent == inner.item
    {
      CutRight(c, t);
      CutIn(inner, InRight(t.left, t.item, c), Node(Leaf, next, u));
      PlugOrder(inner, Node(Leaf, next, u));
    }

    lemma FromRightCut(c: Ctx<Item<V>>, t: Tree<Item<V>>, next: Item<V>)
      requires t.Node? && t.right.Node? && Cut(c, Node(t.left, next, t.right.right))
      ensures Cut(Join(Top, InRight(t.left, next, c)), t.right.right)
    {
      CutRight(c, Node(t.left, next, t.right.right));
    }

    lemma CutApart(c: Ctx<Item<V>>, t: Tree<Item<V>>)
      requires Cut(c, t)
      ensures Apart(c, t)
    {
    }

    /** The previous item takes the place of an item with two children, likewise. */
    method TakePrev(item: Item<V>, prev: Item<V>, cell: Cell<V>, parent: Item?<V>, left: Item<V>, right: Item<V>,
                    ghost c: Ctx<Item<V>>, ghost t: Tree<Item<V>>)
      returns (start: Item<V>, ghost inner: Ctx<Item<V>>, ghost outer: Ctx<Item<V>>, ghost u: Tree<Item<V>>, ghost h: nat)
      requires Pending(c, t, Height(t)) && t.Node? && t.item == item && Root(t.left) == left && Root(t.right) == right
      requires cell == CellOf(c) && parent == Parent(c) && prev == Last(t.left, Top).1
      modifies this`root, All(c, t)`left, All(c, t)`right, All(c, t)`parent
      ensures Replaced(c, t, inner, outer, u, h) && start == Join(inner, outer).item
    {
      hide Cut, CtxLinked, Linked, CtxBalanced, CtxProper, Proper, Cached, CtxCached, Balanced, Replaced;
      inner, u := Last(t.left, Top).0, Last(t.left, Top).2;
      outer := InLeft(c, prev, t.right);
      ghost var s := Node(u, prev, Leaf);
      h := Height(s);
      NeighbourHeights(c, t, outer, inner, s, u);
      CutApart(c, t);
      PrevOrder(c, t, inner, s);
      PrevParent(c, t, inner, u, prev);
      assert allocated(Items(u)) && allocated(CtxItems(inner)) && allocated(Items(t.right)) && allocated(CtxItems(c));
      var prevParent := prev.parent;
      if prevParent == item {
        TakeOverFromLeft(cell, prev, parent, right, c, t);
        FromLeftCut(c, t, prev);
        start := prev;
      } else {
        MovePrev(item, prev, prevParent, cell, parent, left, right, c, t, inner, u);
        start := prevParent;
      }
      KeepCached(u);
      KeepCtxCached((inner, h));
      KeepCached(t.right);
      KeepCtxCached((c, Height(t)));
      ReplacedParts(c, t, inner, outer, u, h);
    }

    lemma PrevParent(c: Ctx<Item<V>>, t: Tree<Item<V>>, inner: Ctx<Item<V>>, u: Tree<Item<V>>, prev: Item<V>)
      requires Cut(c, t) && t.Node? && t.left.Node? && Last(t.left, Top) == (inner, prev, u)
      ensures prev.parent != null && (prev.parent == t.item <==> inner.Top?)
      ensures inner.Top? ==> t.left == Node(u, prev, Leaf)
      ensures !inner.Top? ==> inner.InRight? && prev.parent == inner.item
    {
      CutLeft(c, t);
      CutIn(inner, InLeft(c, t.item, t.right), Node(u, prev, Leaf));
      PlugOrder(inner, Node(u, prev, Leaf));
    }

    lemma FromLeftCut(c: Ctx<Item<V>>, t: Tree<Item<V>>, prev: Item<V>)
      requires t.Node? && t.left.Node? && Cut(c, Node(t.left.left, prev, t.right))
      ensures Cut(Join(Top, InLeft(c, prev, t.right)), t.left.left)
    {
      CutLeft(c, Node(t.left.left, prev, t.right));
    }

    // ---- removal ----

    /** The situation of a removal before the last loop. */
    ghost predicate Removing(c: Ctx<Item<V>>, t: Tree<Item<V>>, u: Tree<Item<V>>)
      reads this, All(c, u)`left, All(c, u)`right, All(c, u)`parent, All(c, u)`height, All(c, u)`slope
    {
      t.Node? && Above(c, u, Height(t), Before(c) + InOrder(t.left) + InOrder(t.right) + After(c), All(c, t) - {t.item})
    }

    /** An item with at most one child: the child moves up. */
    method RemoveNarrow(item: Item<V>, cell: Cell<V>, parent: Item?<V>, child: Item?<V>,
                        ghost c: Ctx<Item<V>>, ghost t: Tree<Item<V>>, ghost u: Tree<Item<V>>)
      requires Pending(c, t, Height(t)) && t.Node? && t.item == item && cell == CellOf(c) && parent == Parent(c)
      requires (u == t.left && t.right.Leaf?) || (u == t.right && t.left.Leaf?)
      requires child == Root(u)
      modifies this`root, All(c, t)`left, All(c, t)`right, All(c, t)`parent
      ensures Removing(c, t, u)
    {
      hide Cut, CtxLinked, Linked, CtxProper, Proper, CtxCached;
      CutApart(c, t);
      NarrowPure(c, t, u);
      assert allocated(Items(u)) && allocated(CtxItems(c)) && Cached(u);
      Splice(cell, parent, child, c, t, u);
      KeepCached(u);
      KeepCtxCached((c, Height(t)));
    }

    static lemma NarrowPure(c: Ctx<Item<V>>, t: Tree<Item<V>>, u: Tree<Item<V>>)
      requires Apart(c, t) && t.Node? && Balanced(t) && ((u == t.left && t.right.Leaf?) || (u == t.right && t.left.Leaf?))
      ensures Balanced(u) && Height(u) == Height(t) - 1 && CellItem(CellOf(c)) <= CtxItems(c) && Single(Root(u)) <= Items(t)
      ensures All(c, u) == All(c, t) - {t.item}
      ensures Before(c) + InOrder(u) + After(c) == Before(c) + InOrder(t.left) + InOrder(t.right) + After(c)
    {
      hide CtxProper, Before, After, InOrder;
      NarrowItems(t, u);
      CellInside(c);
      NarrowOrder(Before(c), t, u);
    }

    static lemma NarrowItems(t: Tree<Item<V>>, u: Tree<Item<V>>)
      requires Proper(t) && t.Node? && ((u == t.left && t.right.Leaf?) || (u == t.right && t.left.Leaf?))
      ensures Items(t) == Items(u) + {t.item} && t.item !in Items(u) && Single(Root(u)) <= Items(u)
    {
    }

    static lemma CellInside(c: Ctx<Item<V>>)
      ensures CellItem(CellOf(c)) <= CtxItems(c)
    {
    }

    static lemma NarrowOrder(s: seq<Item<V>>, t: Tree<Item<V>>, u: Tree<Item<V>>)
      requires t.Node? && ((u == t.left && t.right.Leaf?) || (u == t.right && t.left.Leaf?))
      ensures s + InOrder(u) == s + InOrder(t.left) + InOrder(t.right)
    {
    }

    /** An item with two children: a neighbour from the higher side takes its place. */
    method RemoveWide(item: Item<V>, cell: Cell<V>, origParent: Item?<V>, left: Item<V>, right: Item<V>,
                      ghost c: Ctx<Item<V>>, ghost t: Tree<Item<V>>)
      returns (parent: Item?<V>, ghost u: Tree<Item<V>>)
      requires Pending(c, t, Height(t)) && t.Node? && t.item == item && cell == CellOf(c) && origParent == Parent(c)
      requires Root(t.left) == left && Root(t.right) == right
      requires item.next == First(t.right, Top).1 && item.prev == Last(t.left, Top).1
      modifies this`root, All(c, t)`left, All(c, t)`right, All(c, t)`parent, All(c, t)`height, All(c, t)`slope
      ensures parent == origParent && Removing(c, t, u)
    {
      hide Cut, CtxLinked, Linked, CtxProper, Proper, CtxCached, CtxBalanced;
      var start;
      ghost var inner, outer, h;
      if left.height < right.height {
        start, inner, outer, u, h := TakeNext(item, item.next, cell, origParent, left, right, c, t);
      } else {
        start, inner, outer, u, h := TakePrev(item, item.prev, cell, origParent, left, right, c, t);
      }
      parent, u := RebalanceReplaced(start, cell, origParent, inner, outer, u, h, PlugHeight(inner, h),
                                     Before(c) + InOrder(t.left) + InOrder(t.right) + After(c), All(c, t) - {item});
    }

    /** The tree half of `remove`. */
    method Remove(item: Item<V>, ghost c: Ctx<Item<V>>, ghost t: Tree<Item<V>>) returns (ghost whole: Tree<Item<V>>)
      requires Whole(Plug(c, t)) && t.Node? && t.item == item
      requires t.left.Node? && t.right.Node? ==> item.next == First(t.right, Top).1 && item.prev == Last(t.left, Top).1
      modifies this`root, All(c, t)`left, All(c, t)`right, All(c, t)`parent, All(c, t)`height, All(c, t)`slope
      ensures Whole(whole) && Items(whole) == All(c, t) - {item}
      ensures InOrder(whole) == Before(c) + InOrder(t.left) + InOrder(t.right) + After(c)
    {
      WholeCut(c, t);
      CellFound(c, t);
      var parent := item.parent;
      var cell := CellFor(item);
      var left, right := item.left, item.right;
      ghost var u: Tree<Item<V>>;
      if left == null && right == null {
        u := Leaf;
        RemoveNarrow(item, cell, parent, null, c, t, u);
      } else if left == null {
        u := t.right;
        RemoveNarrow(item, cell, parent, right, c, t, u);
      } else if right == null {
        u := t.left;
        RemoveNarrow(item, cell, parent, left, c, t, u);
      } else {
        parent, u := RemoveWide(item, cell, parent, left, right, c, t);
      }
      whole := RebalanceUpwards(parent, c, u, Height(t));
    }
  }
}
