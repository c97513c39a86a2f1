/**
 The shape of a red-black tree as a value: which node sits where and in which colour.
 A `Path` is a tree with a hole, read from the hole up to the root, so that a loop that
 climbs by parent links works on a path that gets shorter.
 */
module RbShape {
  import opened RbNode

  datatype Side = L | R {
    function Other(): Side { if L? then R else L }
  }

  datatype Tree = Leaf | Fork(left: Tree, n: Node, c: Color, right: Tree) {
    function Child(d: Side): Tree
      requires Fork?
    {
      if d.L? then left else right
    }
  }

  /** Down(up, d, n, c, sib): the hole is the child of n on side d, sib the other child. */
  datatype Path = Top | Down(up: Path, d: Side, n: Node, c: Color, sib: Tree)

  /** The fork whose child on side d is t and whose other child is u. */
  function Join(d: Side, t: Tree, n: Node, c: Color, u: Tree): Tree {
    if d.L? then Fork(t, n, c, u) else Fork(u, n, c, t)
  }

  function Plug(p: Path, t: Tree): Tree {
    match p
    case Top => t
    case Down(up, d, n, c, sib) => Plug(up, Join(d, t, n, c, sib))
  }

  /** One step down on side d. */
  function Lower(p: Path, t: Tree, d: Side): Path
    requires t.Fork?
  {
    Down(p, d, t.n, t.c, t.Child(d.Other()))
  }

  // ------------------------------------------------------------ nodes

  ghost function Nodes(t: Tree): set<Node> {
    match t
    case Leaf => {}
    case Fork(l, n, _, r) => Nodes(l) + {n} + Nodes(r)
  }

  ghost function PathNodes(p: Path): set<Node> {
    match p
    case Top => {}
    case Down(up, _, n, _, sib) => PathNodes(up) + {n} + Nodes(sib)
  }

  /** No node occurs twice. */
  ghost predicate Distinct(t: Tree) {
    match t
    case Leaf => true
    case Fork(l, n, _, r) =>
      n !in Nodes(l) && n !in Nodes(r) && Nodes(l) !! Nodes(r) && Distinct(l) && Distinct(r)
  }

  ghost predicate PathDistinct(p: Path) {
    match p
    case Top => true
    case Down(up, _, n, _, sib) =>
      n !in PathNodes(up) && n !in Nodes(sib) && PathNodes(up) !! Nodes(sib) && PathDistinct(up) && Distinct(sib)
  }

  // ------------------------------------------------------------ order

  /** The nodes from left to right. */
  ghost function InOrder(t: Tree): seq<Node> {
    match t
    case Leaf => []
    case Fork(l, n, _, r) => InOrder(l) + [n] + InOrder(r)
  }

  /** The nodes to the left of the hole, and those to its right. */
  ghost function Before(p: Path): seq<Node> {
    match p
    case Top => []
    case Down(up, d, n, _, sib) => if d.L? then Before(up) else Before(up) + InOrder(sib) + [n]
  }

  ghost function After(p: Path): seq<Node> {
    match p
    case Top => []
    case Down(up, d, n, _, sib) => if d.L? then [n] + InOrder(sib) + After(up) else After(up)
  }

  lemma Regroup<T>(a: seq<T>, b: seq<T>, c: seq<T>, d: seq<T>, e: seq<T>)
    ensures a + (b + c + d) + e == a + b + (c + d + e)
    ensures a + (b + c + d) + e == (a + b + c) + d + e
  {
  }

  lemma Flatten<T>(a: seq<T>, b: seq<T>, c: seq<T>, d: seq<T>, e: seq<T>)
    ensures a + (b + c + d) + e == (a + b) + c + (d + e)
  {
  }

  lemma {:induction false} PlugInOrder(p: Path, t: Tree)
    ensures InOrder(Plug(p, t)) == Before(p) + InOrder(t) + After(p)
  {
    match p
    case Top =>
    case Down(up, d, n, c, sib) =>
      PlugInOrder(up, Join(d, t, n, c, sib));
      if d.L? {
        Regroup(Before(up), InOrder(t), [n], InOrder(sib), After(up));
      } else {
        Regroup(Before(up), InOrder(sib), [n], InOrder(t), After(up));
      }
  }

  lemma {:induction false} PlugNodes(p: Path, t: Tree)
    ensures Nodes(Plug(p, t)) == PathNodes(p) + Nodes(t)
  {
    if p.Down? {
      PlugNodes(p.up, Join(p.d, t, p.n, p.c, p.sib));
    }
  }

  lemma {:induction false} InOrderNodes(t: Tree)
    ensures forall x :: x in InOrder(t) ==> x in Nodes(t)
    ensures forall x :: x in Nodes(t) ==> x in InOrder(t)
  {
    if t.Fork? {
      InOrderNodes(t.left);
      InOrderNodes(t.right);
    }
  }

  ghost predicate Once<T>(s: seq<T>) {
    forall i, j :: 0 <= i < j < |s| ==> s[i] != s[j]
  }

  lemma OnceConcat<T>(a: seq<T>, x: T, b: seq<T>)
    requires Once(a) && Once(b) && x !in a && x !in b && (forall y :: y in a ==> y !in b)
    ensures Once(a + [x] + b)
  {
    var s := a + [x] + b;
    forall i, j | 0 <= i < j < |s|
      ensures s[i] != s[j]
    {
      if i < |a| {
        assert s[i] in a;
      }
      if j > |a| {
        assert s[j] == b[j - |a| - 1];
        assert s[j] in b;
      }
      if i > |a| {
        assert s[i] == b[i - |a| - 1];
      }
    }
  }

  /** Distinct trees list every node once. */
  lemma {:induction false} InOrderOnce(t: Tree)
    requires Distinct(t)
    ensures Once(InOrder(t))
  {
    if t.Fork? {
      var a, b := InOrder(t.left), InOrder(t.right);
      InOrderOnce(t.left);
      InOrderOnce(t.right);
      InOrderNodes(t.left);
      InOrderNodes(t.right);
      forall y | y in a
        ensures y !in b
      {
        assert y in Nodes(t.left);
      }
      OnceConcat(a, t.n, b);
    }
  }

  // ------------------------------------------------------------ rotation

  /** t with the child opposite to d raised above its root, which becomes that child's d-child. */
  function RotateTree(t: Tree, d: Side): Tree
    requires t.Fork? && t.Child(d.Other()).Fork?
  {
    var u := t.Child(d.Other());
    Join(d, Join(d, t.Child(d), t.n, t.c, u.Child(d)), u.n, u.c, u.Child(d.Other()))
  }

  lemma Reassociate<T>(a: seq<T>, b: seq<T>, c: seq<T>, d: seq<T>, e: seq<T>)
    ensures (a + b + c) + d + e == a + b + (c + d + e)
  {
  }

  lemma RotateShape(t: Tree, d: Side)
    requires t.Fork? && t.Child(d.Other()).Fork?
    ensures Nodes(RotateTree(t, d)) == Nodes(t)
    ensures Distinct(t) ==> Distinct(RotateTree(t, d))
    ensures InOrder(RotateTree(t, d)) == InOrder(t)
  {
    var u := t.Child(d.Other());
    var a, b, c := InOrder(t.Child(d)), InOrder(u.Child(d)), InOrder(u.Child(d.Other()));
    if d.L? {
      Reassociate(a, [t.n], b, [u.n], c);
    } else {
      Reassociate(c, [u.n], b, [t.n], a);
    }
    if Distinct(t) {
      assert Distinct(u);
    }
  }

  // ------------------------------------------------------------ balance

  predicate IsBlack(t: Tree) {
    t.Leaf? || t.c.Black?
  }

  /** t has no red node with a red child and k black nodes on every way down. */
  predicate Balanced(t: Tree, k: int) {
    match t
    case Leaf => k == 0
    case Fork(l, _, Black, r) => Balanced(l, k - 1) && Balanced(r, k - 1)
    case Fork(l, _, Red, r) => IsBlack(l) && IsBlack(r) && Balanced(l, k) && Balanced(r, k)
  }

  /** Plugging in a tree of black height k balances the whole, up to a red-red pair at the hole. */
  predicate Fits(p: Path, k: int) {
    match p
    case Top => true
    case Down(up, _, _, Black, sib) => Balanced(sib, k) && Fits(up, k + 1)
    case Down(up, _, _, Red, sib) =>
      Balanced(sib, k) && IsBlack(sib) && up.Down? && up.c.Black? && Fits(up, k)
  }

  predicate HoleIsUnderBlack(p: Path) {
    p.Down? && p.c.Black?
  }

  ghost predicate RedBlack(t: Tree) {
    IsBlack(t) && exists k :: Balanced(t, k)
  }

  lemma {:induction false} PlugBalanced(p: Path, t: Tree, k: int)
    requires Balanced(t, k) && Fits(p, k)
    requires IsBlack(t) || HoleIsUnderBlack(p)
    ensures RedBlack(Plug(p, t))
  {
    match p
    case Top =>
    case Down(up, d, n, c, sib) =>
      PlugBalanced(up, Join(d, t, n, c, sib), if c.Black? then k + 1 else k);
  }

  lemma {:induction false} BalancedHeight(t: Tree, k: int)
    requires Balanced(t, k)
    ensures 0 <= k && (k == 0 ==> IsBlack(t) ==> t.Leaf?)
  {
    if t.Fork? {
      BalancedHeight(t.left, if t.c.Black? then k - 1 else k);
    }
  }

  /** A hole in a balanced tree fits what sits in it. */
  lemma {:induction false} UnplugBalanced(p: Path, t: Tree) returns (k: int)
    requires RedBlack(Plug(p, t))
    ensures Balanced(t, k) && Fits(p, k) && (IsBlack(t) || HoleIsUnderBlack(p))
  {
    match p
    case Top =>
      k :| Balanced(t, k);
    case Down(up, d, n, c, sib) =>
      var j := UnplugBalanced(up, Join(d, t, n, c, sib));
      k := if c.Black? then j - 1 else j;
  }

  // ------------------------------------------------------------ the hole and the tree below it, as a whole

  ghost function Depth(p: Path): nat {
    if p.Top? then 0 else 1 + Depth(p.up)
  }

  /** Two zippers with the same nodes in the same order. */
  ghost predicate SameNodes(p: Path, t: Tree, q: Path, u: Tree) {
    && InOrder(Plug(p, t)) == InOrder(Plug(q, u))
    && PathNodes(p) + Nodes(t) == PathNodes(q) + Nodes(u)
  }

  /** What a step below p does to the tree in its hole, it does to the whole. */
  lemma SameBelow(p: Path, t: Tree, u: Tree)
    requires InOrder(t) == InOrder(u) && Nodes(t) == Nodes(u)
    ensures SameNodes(p, t, p, u)
  {
    PlugInOrder(p, t);
    PlugInOrder(p, u);
  }
}
