/**
 Shapes of binary trees, with no heap: heights, in-order sequences, the rotations of
 `Map::rotl`/`rotr`/`shiftl`/`shiftr`, and zippers, which are trees with one subtree cut out.
 */
module AvlShape {
  import opened Basics

  datatype Tree<X> = Leaf | Node(left: Tree<X>, item: X, right: Tree<X>)

  function Higher(a: nat, b: nat): nat {
    if a > b then a else b
  }

  function Height<X>(t: Tree<X>): nat {
    if t.Leaf? then 0 else 1 + Higher(Height(t.left), Height(t.right))
  }

  function Slope<X>(t: Tree<X>): int
    requires t.Node?
  {
    Height(t.left) - Height(t.right)
  }

  function InOrder<X>(t: Tree<X>): seq<X> {
    if t.Leaf? then [] else InOrder(t.left) + [t.item] + InOrder(t.right)
  }

  ghost function Items<X>(t: Tree<X>): set<X> {
    if t.Leaf? then {} else Items(t.left) + {t.item} + Items(t.right)
  }

  lemma SingleNode<X>(x: X)
    ensures Items(Node(Leaf, x, Leaf)) == {x} && InOrder(Node(Leaf, x, Leaf)) == [x]
  {
  }

  predicate Balanced<X>(t: Tree<X>) {
    t.Node? ==> -1 <= Slope(t) <= 1 && Balanced(t.left) && Balanced(t.right)
  }

  /** No item occurs twice. */
  ghost predicate Proper<X>(t: Tree<X>) {
    t.Node? ==>
      && t.item !in Items(t.left) && t.item !in Items(t.right) && Items(t.left) !! Items(t.right)
      && Proper(t.left) && Proper(t.right)
  }

  // ---- rotations ----

  predicate CanRotateRight<X>(t: Tree<X>) { t.Node? && t.left.Node? }
  predicate CanRotateLeft<X>(t: Tree<X>) { t.Node? && t.right.Node? }

  function RotateRight<X>(t: Tree<X>): Tree<X>
    requires CanRotateRight(t)
  {
    Node(t.left.left, t.left.item, Node(t.left.right, t.item, t.right))
  }

  function RotateLeft<X>(t: Tree<X>): Tree<X>
    requires CanRotateLeft(t)
  {
    Node(Node(t.left, t.item, t.right.left), t.right.item, t.right.right)
  }

  /** A tree whose root alone may be out of balance, by one level too many. */
  predicate NearlyBalanced<X>(t: Tree<X>) {
    t.Node? && -2 <= Slope(t) <= 2 && Balanced(t.left) && Balanced(t.right)
  }

  /** What `rebal` makes of a tree. */
  function Rebalance<X>(t: Tree<X>): Tree<X>
    requires NearlyBalanced(t)
  {
    if Slope(t) > 1 then
      RotateRight(if Slope(t.left) == -1 then t.(left := RotateLeft(t.left)) else t)
    else if Slope(t) < -1 then
      RotateLeft(if Slope(t.right) == 1 then t.(right := RotateRight(t.right)) else t)
    else t
  }

  lemma RotateKeepsOrder<X>(t: Tree<X>)
    ensures CanRotateRight(t) ==> InOrder(RotateRight(t)) == InOrder(t) && Items(RotateRight(t)) == Items(t)
    ensures CanRotateLeft(t) ==> InOrder(RotateLeft(t)) == InOrder(t) && Items(RotateLeft(t)) == Items(t)
  {
  }

  lemma RotateKeepsProper<X>(t: Tree<X>)
    requires Proper(t)
    ensures CanRotateRight(t) ==> Proper(RotateRight(t))
    ensures CanRotateLeft(t) ==> Proper(RotateLeft(t))
  {
  }

  /** The tree `shiftr` (`shiftl`) hands to its last rotation. */
  function Prepared<X>(t: Tree<X>): Tree<X>
    requires NearlyBalanced(t)
  {
    if Slope(t) > 1 && Slope(t.left) == -1 then t.(left := RotateLeft(t.left))
    else if Slope(t) < -1 && Slope(t.right) == 1 then t.(right := RotateRight(t.right))
    else t
  }

  lemma PreparedKeepsItems<X>(t: Tree<X>)
    requires NearlyBalanced(t)
    ensures InOrder(Prepared(t)) == InOrder(t) && Items(Prepared(t)) == Items(t)
    ensures Proper(t) ==> Proper(Prepared(t))
    ensures Slope(t) > 1 ==> CanRotateRight(Prepared(t))
    ensures Slope(t) < -1 ==> CanRotateLeft(Prepared(t))
  {
    RotateKeepsOrder(t.left);
    RotateKeepsOrder(t.right);
    if Proper(t) {
      RotateKeepsProper(t.left);
      RotateKeepsProper(t.right);
    }
  }

  lemma RebalanceKeepsItems<X>(t: Tree<X>)
    requires NearlyBalanced(t)
    ensures InOrder(Rebalance(t)) == InOrder(t) && Items(Rebalance(t)) == Items(t)
    ensures Proper(t) ==> Proper(Rebalance(t))
  {
    hide InOrder, Items, Proper, Height, Balanced;
    PreparedKeepsItems(t);
    RotateKeepsOrder(Prepared(t));
    if Proper(t) { RotateKeepsProper(Prepared(t)); }
  }

  lemma RightHeavy<X>(t: Tree<X>)
    requires NearlyBalanced(t) && Slope(t) < -1
    ensures Balanced(Rebalance(t)) && Rebalance(t).Node?
    ensures Height(t) - 1 <= Height(Rebalance(t)) <= Height(t)
  {
    assert Balanced(t.right.right) && (Slope(t.right) == 1 ==> Balanced(t.right.left));
  }

  lemma LeftHeavy<X>(t: Tree<X>)
    requires NearlyBalanced(t) && Slope(t) > 1
    ensures Balanced(Rebalance(t)) && Rebalance(t).Node?
    ensures Height(t) - 1 <= Height(Rebalance(t)) <= Height(t)
  {
    assert Balanced(t.left.left) && (Slope(t.left) == -1 ==> Balanced(t.left.right));
  }

  /** Rebalancing restores balance, keeps the order, and lowers the tree by at most one level. */
  lemma RebalanceWorks<X>(t: Tree<X>)
    requires NearlyBalanced(t)
    ensures Balanced(Rebalance(t)) && Rebalance(t).Node?
    ensures Height(t) - 1 <= Height(Rebalance(t)) <= Height(t)
    ensures InOrder(Rebalance(t)) == InOrder(t) && Items(Rebalance(t)) == Items(t)
    ensures Proper(t) ==> Proper(Rebalance(t))
  {
    RebalanceKeepsItems(t);
    if Slope(t) > 1 { LeftHeavy(t); } else if Slope(t) < -1 { RightHeavy(t); }
  }

  // ---- zippers ----

  /** A tree with a hole, seen from the hole upwards. */
  datatype Ctx<X> =
    | Top
    | InLeft(up: Ctx<X>, item: X, right: Tree<X>)    // the hole is the left child of `item`
    | InRight(left: Tree<X>, item: X, up: Ctx<X>)    // the hole is the right child of `item`

  /** A tree cut at a hole: what is around the hole and the subtree that fills it. */
  datatype Zip<X> = Zip(ctx: Ctx<X>, sub: Tree<X>)

  function Plug<X>(c: Ctx<X>, t: Tree<X>): Tree<X>
    decreases c
  {
    match c
    case Top => t
    case InLeft(up, x, r) => Plug(up, Node(t, x, r))
    case InRight(l, x, up) => Plug(up, Node(l, x, t))
  }

  /** The subtree one level up: the hole's parent with its children. */
  function Grown<X>(c: Ctx<X>, t: Tree<X>): Tree<X>
    requires !c.Top?
  {
    if c.InLeft? then Node(t, c.item, c.right) else Node(c.left, c.item, t)
  }

  /** The hole's sibling. */
  function Sibling<X>(c: Ctx<X>): Tree<X>
    requires !c.Top?
  {
    if c.InLeft? then c.right else c.left
  }

  /** The items before and after the hole. */
  function Before<X>(c: Ctx<X>): seq<X> {
    match c
    case Top => []
    case InLeft(up, _, _) => Before(up)
    case InRight(l, x, up) => Before(up) + InOrder(l) + [x]
  }

  function After<X>(c: Ctx<X>): seq<X> {
    match c
    case Top => []
    case InLeft(up, x, r) => [x] + InOrder(r) + After(up)
    case InRight(_, _, up) => After(up)
  }

  ghost function CtxItems<X>(c: Ctx<X>): set<X> {
    match c
    case Top => {}
    case InLeft(up, x, r) => CtxItems(up) + {x} + Items(r)
    case InRight(l, x, up) => Items(l) + {x} + CtxItems(up)
  }

  ghost predicate CtxProper<X>(c: Ctx<X>) {
    match c
    case Top => true
    case InLeft(up, x, r) =>
      && x !in Items(r) && x !in CtxItems(up) && Items(r) !! CtxItems(up) && Proper(r) && CtxProper(up)
    case InRight(l, x, up) =>
      && x !in Items(l) && x !in CtxItems(up) && Items(l) !! CtxItems(up) && Proper(l) && CtxProper(up)
  }

  /** Hole and context share no item, and neither repeats one. */
  ghost predicate Apart<X>(c: Ctx<X>, t: Tree<X>) {
    CtxProper(c) && Proper(t) && Items(t) !! CtxItems(c)
  }

  lemma {:induction false} PlugOrder<X>(c: Ctx<X>, t: Tree<X>)
    ensures InOrder(Plug(c, t)) == Before(c) + InOrder(t) + After(c)
    ensures Items(Plug(c, t)) == Items(t) + CtxItems(c)
    decreases c
  {
    if !c.Top? {
      PlugOrder(c.up, Grown(c, t));
      GrownItems(c, t);
    }
  }

  lemma {:induction false} PlugProper<X>(c: Ctx<X>, t: Tree<X>)
    ensures Proper(Plug(c, t)) <==> Apart(c, t)
    decreases c
  {
    match c
    case Top =>
    case InLeft(up, x, r) =>
      PlugProper(up, Node(t, x, r));
    case InRight(l, x, up) =>
      PlugProper(up, Node(l, x, t));
  }

  /** Every context balances around a hole of height `h`. */
  predicate CtxBalanced<X>(c: Ctx<X>, h: nat) {
    match c
    case Top => true
    case InLeft(up, _, r) =>
      -1 <= h - Height(r) <= 1 && Balanced(r) && CtxBalanced(up, 1 + Higher(h, Height(r)))
    case InRight(l, _, up) =>
      -1 <= Height(l) - h <= 1 && Balanced(l) && CtxBalanced(up, 1 + Higher(Height(l), h))
  }

  lemma {:induction false} PlugBalanced<X>(c: Ctx<X>, t: Tree<X>)
    requires Balanced(t) && CtxBalanced(c, Height(t))
    ensures Balanced(Plug(c, t))
    decreases c
  {
    match c
    case Top =>
    case InLeft(up, x, r) => PlugBalanced(up, Node(t, x, r));
    case InRight(l, x, up) => PlugBalanced(up, Node(l, x, t));
  }

  lemma {:induction false} UnplugBalanced<X>(c: Ctx<X>, t: Tree<X>)
    requires Balanced(Plug(c, t))
    ensures Balanced(t) && CtxBalanced(c, Height(t))
    decreases c
  {
    match c
    case Top =>
    case InLeft(up, x, r) => UnplugBalanced(up, Node(t, x, r));
    case InRight(l, x, up) => UnplugBalanced(up, Node(l, x, t));
  }

  lemma {:induction false} OrderItems<X>(t: Tree<X>, x: X)
    ensures x in InOrder(t) <==> x in Items(t)
  {
    if t.Node? {
      OrderItems(t.left, x);
      OrderItems(t.right, x);
    }
  }

  lemma {:induction false} ProperDistinct<X>(t: Tree<X>)
    requires Proper(t)
    ensures Distinct(InOrder(t))
  {
    if t.Node? {
      ProperDistinct(t.left);
      ProperDistinct(t.right);
      var a, x, b := InOrder(t.left), t.item, InOrder(t.right);
      OrderItems(t.right, x);
      forall y | y in a ensures y != x && y !in b {
        OrderItems(t.left, y);
        OrderItems(t.right, y);
      }
      DistinctJoin(a, x, b);
    }
  }

  lemma DistinctJoin<X>(a: seq<X>, x: X, b: seq<X>)
    requires Distinct(a) && Distinct(b) && x !in b && forall y :: y in a ==> y != x && y !in b
    ensures Distinct(a + [x] + b)
  {
    var s := a + [x] + b;
    forall i, j | 0 <= i < j < |s| ensures s[i] != s[j] {
      if i < |a| {
        assert s[i] in a;
        if j > |a| { assert s[j] == b[j - |a| - 1] && s[j] in b; }
      } else if i == |a| {
        assert s[j] == b[j - |a| - 1] && s[j] in b;
      }
    }
  }

  /** Cutting a tree at one of its items. */
  ghost function Focus<X>(t: Tree<X>, x: X, c: Ctx<X>): (r: (Ctx<X>, Tree<X>))
    requires x in Items(t)
    ensures r.1.Node? && r.1.item == x && Plug(r.0, r.1) == Plug(c, t)
  {
    if t.item == x then (c, t)
    else if x in Items(t.left) then Focus(t.left, x, InLeft(c, t.item, t.right))
    else Focus(t.right, x, InRight(t.left, t.item, c))
  }

  // ---- how many items a balanced tree of a height holds ----

  function Fib(n: nat): nat {
    if n < 2 then n else Fib(n - 1) + Fib(n - 2)
  }

  lemma {:induction false} FibGrows(m: nat, n: nat)
    requires m <= n
    ensures Fib(m) <= Fib(n)
    decreases n
  {
    if m < n {
      FibGrows(m, n - 1);
    }
  }

  lemma FibSmall()
    ensures Fib(2) == 1
  {
  }

  lemma FibSplits(l: nat, r: nat)
    requires -1 <= l - r <= 1
    ensures Fib(l + 2) + Fib(r + 2) >= Fib(Higher(l, r) + 3)
  {
    var h := 1 + Higher(l, r);
    FibGrows(h, l + 2);
    FibGrows(h, r + 2);
    assert Fib(h + 2) == Fib(h + 1) + Fib(h);
  }

  /** A balanced tree of height h holds at least Fib(h + 2) - 1 items. */
  lemma {:induction false} HeightNeedsItems<X>(t: Tree<X>)
    requires Balanced(t)
    ensures |InOrder(t)| >= Fib(Height(t) + 2) - 1
  {
    hide Fib;
    if t.Leaf? {
      FibSmall();
    } else {
      HeightNeedsItems(t.left);
      HeightNeedsItems(t.right);
      FibSplits(Height(t.left), Height(t.right));
    }
  }

  function Pow2(n: nat): nat {
    if n == 0 then 1 else 2 * Pow2(n - 1)
  }

  lemma {:induction false} FibDoubles(n: nat)
    ensures Fib(2 * n + 2) >= Pow2(n)
  {
    if n > 0 {
      FibDoubles(n - 1);
      assert Fib(2 * n + 2) == Fib(2 * n + 1) + Fib(2 * n);
      FibGrows(2 * n, 2 * n + 1);
    }
  }

  /** Twice the height doubles the items, so the height is logarithmic in the number of items. */
  lemma LogarithmicHeight<X>(t: Tree<X>)
    requires Balanced(t)
    ensures Pow2(Height(t) / 2) <= |InOrder(t)| + 1
  {
    hide Fib, Pow2, Height, Balanced, InOrder;
    HeightNeedsItems(t);
    FibDoubles(Height(t) / 2);
    FibGrows(2 * (Height(t) / 2) + 2, Height(t) + 2);
  }

  lemma GrownItems<X>(c: Ctx<X>, t: Tree<X>)
    requires !c.Top?
    ensures Items(Grown(c, t)) + CtxItems(c.up) == Items(t) + CtxItems(c)
    ensures Before(c.up) + InOrder(Grown(c, t)) + After(c.up) == Before(c) + InOrder(t) + After(c)
    ensures Apart(c, t) ==> Apart(c.up, Grown(c, t))
  {
  }

  // ---- contexts inside contexts ----

  /** The hole of `inner`, when `inner` itself sits in the hole of `outer`. */
  function Join<X>(inner: Ctx<X>, outer: Ctx<X>): Ctx<X> {
    match inner
    case Top => outer
    case InLeft(up, x, r) => InLeft(Join(up, outer), x, r)
    case InRight(l, x, up) => InRight(l, x, Join(up, outer))
  }

  lemma {:induction false} JoinParts<X>(inner: Ctx<X>, outer: Ctx<X>)
    ensures CtxItems(Join(inner, outer)) == CtxItems(inner) + CtxItems(outer)
    ensures Before(Join(inner, outer)) == Before(outer) + Before(inner)
    ensures After(Join(inner, outer)) == After(inner) + After(outer)
  {
    hide InOrder, Items;
    match inner
    case Top =>
    case InLeft(up, x, r) => {
      JoinParts(up, outer);
      assert [x] + InOrder(r) + (After(up) + After(outer)) == [x] + InOrder(r) + After(up) + After(outer);
    }
    case InRight(l, x, up) => {
      JoinParts(up, outer);
      assert Before(outer) + Before(up) + InOrder(l) + [x] == Before(outer) + (Before(up) + InOrder(l) + [x]);
    }
  }

  /** The height of a context whose hole has height `h`. */
  function PlugHeight<X>(c: Ctx<X>, h: nat): nat {
    match c
    case Top => h
    case InLeft(up, _, r) => PlugHeight(up, 1 + Higher(h, Height(r)))
    case InRight(l, _, up) => PlugHeight(up, 1 + Higher(Height(l), h))
  }

  lemma {:induction false} HeightOfPlug<X>(c: Ctx<X>, t: Tree<X>)
    ensures Height(Plug(c, t)) == PlugHeight(c, Height(t))
    decreases c
  {
    if !c.Top? { HeightOfPlug(c.up, Grown(c, t)); }
  }

  /** One level up: a hole off by at most one level makes a subtree that rebalancing brings within one level. */
  lemma GrowBalance<X>(c: Ctx<X>, t: Tree<X>, h: nat)
    requires !c.Top? && Balanced(t) && CtxBalanced(c, h) && -1 <= Height(t) - h <= 1
    ensures var g, k := Grown(c, t), 1 + Higher(h, Height(Sibling(c)));
            && NearlyBalanced(g) && Balanced(Rebalance(g)) && -1 <= Height(Rebalance(g)) - k <= 1
            && CtxBalanced(c.up, k) && PlugHeight(c.up, k) == PlugHeight(c, h)
  {
    GrowHeights(c, t, h);
    RebalanceBounds(Grown(c, t));
  }

  lemma GrowHeights<X>(c: Ctx<X>, t: Tree<X>, h: nat)
    requires !c.Top? && Balanced(t) && CtxBalanced(c, h) && -1 <= Height(t) - h <= 1
    ensures var g, k := Grown(c, t), 1 + Higher(h, Height(Sibling(c)));
            && NearlyBalanced(g) && CtxBalanced(c.up, k) && PlugHeight(c.up, k) == PlugHeight(c, h)
            && -1 <= Height(g) - k <= 1 && (Height(g) < k ==> -1 <= Slope(g) <= 1)
  {
    hide CtxBalanced, PlugHeight;
    CtxBalancedUp(c, h);
  }

  lemma GrownBalanced<X>(c: Ctx<X>, t: Tree<X>)
    requires !c.Top?
    ensures Height(Grown(c, t)) == 1 + Higher(Height(t), Height(Sibling(c)))
    ensures Balanced(t) && Balanced(Sibling(c)) && -1 <= Height(t) - Height(Sibling(c)) <= 1 ==> Balanced(Grown(c, t))
  {
  }

  lemma CtxBalancedUp<X>(c: Ctx<X>, h: nat)
    requires !c.Top? && CtxBalanced(c, h)
    ensures var s := Sibling(c); var k := 1 + Higher(h, Height(s));
            Balanced(s) && -1 <= h - Height(s) <= 1 && CtxBalanced(c.up, k) && PlugHeight(c.up, k) == PlugHeight(c, h)
  {
  }

  lemma RebalanceBounds<X>(t: Tree<X>)
    requires NearlyBalanced(t)
    ensures Balanced(Rebalance(t)) && Height(t) - 1 <= Height(Rebalance(t)) <= Height(t)
    ensures -1 <= Slope(t) <= 1 ==> Rebalance(t) == t
  {
    RebalanceWorks(t);
  }

  // ---- neighbours in the order ----

  /** A subtree cut at its first item: the context of that item (below `c`), the item and its right subtree. */
  function First<X>(t: Tree<X>, c: Ctx<X>): (r: (Ctx<X>, X, Tree<X>))
    requires t.Node?
    ensures Plug(r.0, Node(Leaf, r.1, r.2)) == Plug(c, t) && Before(r.0) == Before(c)
    ensures (t.left.Leaf? ==> r.0 == c) && (t.left.Node? ==> r.0.InLeft?)
    decreases t
  {
    if t.left.Leaf? then (c, t.item, t.right) else First(t.left, InLeft(c, t.item, t.right))
  }

  function Last<X>(t: Tree<X>, c: Ctx<X>): (r: (Ctx<X>, X, Tree<X>))
    requires t.Node?
    ensures Plug(r.0, Node(r.2, r.1, Leaf)) == Plug(c, t) && After(r.0) == After(c)
    ensures (t.right.Leaf? ==> r.0 == c) && (t.right.Node? ==> r.0.InRight?)
    decreases t
  {
    if t.right.Leaf? then (c, t.item, t.left) else Last(t.right, InRight(t.left, t.item, c))
  }
}
