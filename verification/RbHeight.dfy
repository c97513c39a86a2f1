/** What it is to be a red-black tree, in the words of the textbooks, and what it is good for. */
module RbHeight {
  import opened RbNode
  import opened RbShape

  // ------------------------------------------------------------ the textbook's conditions

  predicate NoRedRed(t: Tree) {
    match t
    case Leaf => true
    case Fork(l, _, c, r) => (c.Red? ==> IsBlack(l) && IsBlack(r)) && NoRedRed(l) && NoRedRed(r)
  }

  function Blacks(c: Color): nat {
    if c.Black? then 1 else 0
  }

  /** Some way from the root to a leaf passes b black nodes. */
  predicate Way(t: Tree, b: int) {
    match t
    case Leaf => b == 0
    case Fork(l, _, c, r) => Way(l, b - Blacks(c)) || Way(r, b - Blacks(c))
  }

  lemma {:induction false} BalancedWays(t: Tree, k: int, b: int)
    requires Balanced(t, k)
    ensures NoRedRed(t) && (Way(t, b) ==> b == k)
  {
    if t.Fork? {
      BalancedWays(t.left, k - Blacks(t.c), b - Blacks(t.c));
      BalancedWays(t.right, k - Blacks(t.c), b - Blacks(t.c));
    }
  }

  lemma {:induction false} SomeWay(t: Tree) returns (b: int)
    ensures Way(t, b)
  {
    if t.Leaf? {
      b := 0;
    } else {
      b := SomeWay(t.left);
      b := b + Blacks(t.c);
    }
  }

  lemma {:induction false} WaysBalanced(t: Tree, k: int)
    requires NoRedRed(t) && forall b :: Way(t, b) ==> b == k
    ensures Balanced(t, k)
  {
    match t
    case Leaf => assert Way(t, 0);
    case Fork(l, _, c, r) =>
      forall b | Way(l, b) || Way(r, b)
        ensures b == k - Blacks(c)
      {
        assert Way(t, b + Blacks(c));
      }
      WaysBalanced(l, k - Blacks(c));
      WaysBalanced(r, k - Blacks(c));
  }

  /** All ways down pass equally many black nodes. */
  ghost predicate SameCounts(t: Tree) {
    forall a, b :: Way(t, a) && Way(t, b) ==> a == b
  }

  /** The root is black, no red node has a red child, and all ways down pass equally many black nodes. */
  lemma Textbook(t: Tree)
    ensures RedBlack(t) <==> IsBlack(t) && NoRedRed(t) && SameCounts(t)
  {
    if RedBlack(t) {
      var k :| Balanced(t, k);
      forall b
        ensures NoRedRed(t) && (Way(t, b) ==> b == k)
      {
        BalancedWays(t, k, b);
      }
    }
    if IsBlack(t) && NoRedRed(t) && SameCounts(t) {
      var k := SomeWay(t);
      WaysBalanced(t, k);
    }
  }

  // ------------------------------------------------------------ height

  function Height(t: Tree): nat {
    match t
    case Leaf => 0
    case Fork(l, _, _, r) => 1 + if Height(l) < Height(r) then Height(r) else Height(l)
  }

  function Pow2(k: nat): nat {
    if k == 0 then 1 else 2 * Pow2(k - 1)
  }

  lemma {:induction false} Pow2Grows(a: nat, b: nat)
    requires a <= b
    ensures Pow2(a) <= Pow2(b)
    decreases b
  {
    if a < b {
      Pow2Grows(a, b - 1);
    }
  }

  lemma {:induction false} Pow2Twice(k: nat)
    ensures Pow2(2 * k) == Pow2(k) * Pow2(k)
  {
    if k > 0 {
      Pow2Twice(k - 1);
      var x := Pow2(k - 1);
      assert Pow2(2 * k) == 2 * (2 * Pow2(2 * (k - 1)));
      assert (2 * x) * (2 * x) == 4 * (x * x);
    }
  }

  /** k black nodes on every way down take 2^k - 1 nodes, and leave room for k red ones, and one at the top. */
  lemma {:induction false} BalancedBounds(t: Tree, k: int)
    requires Balanced(t, k)
    ensures 0 <= k && Pow2(k) <= |InOrder(t)| + 1
    ensures Height(t) <= 2 * k + if IsBlack(t) then 0 else 1
  {
    if t.Fork? {
      BalancedBounds(t.left, k - Blacks(t.c));
      BalancedBounds(t.right, k - Blacks(t.c));
    }
  }

  /** The height of a red-black tree of n nodes is at most twice the binary logarithm of n + 1. */
  lemma HeightBound(t: Tree)
    requires RedBlack(t)
    ensures Pow2(Height(t)) <= (|InOrder(t)| + 1) * (|InOrder(t)| + 1)
  {
    var k :| Balanced(t, k);
    BalancedBounds(t, k);
    Pow2Grows(Height(t), 2 * k);
    Pow2Twice(k);
    Squares(Pow2(k), |InOrder(t)| + 1);
  }

  lemma Squares(a: nat, b: nat)
    requires a <= b
    ensures a * a <= b * b
  {
    assert a * a <= a * b <= b * b;
  }

  /** No hole in a tree is deeper than the tree is high. */
  lemma {:induction false} DepthBound(p: Path, t: Tree)
    ensures Depth(p) + Height(t) <= Height(Plug(p, t))
  {
    if p.Down? {
      DepthBound(p.up, Join(p.d, t, p.n, p.c, p.sib));
    }
  }
}
