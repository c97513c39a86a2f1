/** What the delete fix-up loop does to the shape of the tree. Line numbers are those of rbtree.c. */
module RbShort {
  import opened RbNode
  import opened RbShape
  import opened RbMemory

  function Blackened(t: Tree): Tree {
    if t.Leaf? then t else t.(c := Black)
  }

  /** Every way down through the hole of p is one black node short; a red t would make up for it if painted black. */
  ghost predicate ShortAt(p: Path, t: Tree, k: int) {
    Balanced(Blackened(t), if IsBlack(t) then k else k + 1) && Fits(p, k + 1)
  }

  /** The sibling of a subtree that is short of a black node is a real node. */
  lemma SiblingIsReal(p: Path, t: Tree, k: int)
    requires ShortAt(p, t, k) && p.Down? && IsBlack(t)
    ensures p.sib.Fork? && 0 <= k
    ensures IsBlack(p.sib) ==> Balanced(p.sib.left, k) && Balanced(p.sib.right, k)
    ensures !IsBlack(p.sib) ==> p.c.Black? && p.sib.left.Fork? && p.sib.right.Fork?
  {
    BalancedHeight(t, k);
    if !IsBlack(p.sib) {
      assert Balanced(p.sib.left, k + 1) && Balanced(p.sib.right, k + 1);
    }
  }

  /** The hole's parent goes down on side d: the path after turning Join(d, t, n, c, w) towards d. */
  ghost function LoweredPath(p: Path, w: Tree, cw: Color, cn: Color): Path
    requires p.Down? && w.Fork?
  {
    Down(Down(p.up, p.d, w.n, cw, w.Child(p.d.Other())), p.d, p.n, cn, w.Child(p.d))
  }

  lemma LoweredTurn(p: Path, t: Tree, w: Tree, cw: Color, cn: Color)
    requires p.Down? && w.Fork?
    ensures RotateTree(Join(p.d, t, p.n, cn, w.(c := cw)), p.d)
         == Join(p.d, Join(p.d, t, p.n, cn, w.Child(p.d)), w.n, cw, w.Child(p.d.Other()))
  {
  }

  /** Red sibling: after the turn the sibling is black. */
  lemma RedSiblingShort(p: Path, t: Tree, k: int)
    requires ShortAt(p, t, k) && p.Down? && IsBlack(t) && !IsBlack(p.sib)
    ensures ShortAt(LoweredPath(p, p.sib, Black, Red), t, k)
    ensures p.sib.Child(p.d).Fork? && IsBlack(p.sib.Child(p.d))
    ensures SameNodes(p, t, LoweredPath(p, p.sib, Black, Red), t)
  {
    SiblingIsReal(p, t, k);
    var u := Join(p.d, t, p.n, Red, p.sib.(c := Black));
    RotateShape(u, p.d);
    SameBelow(p.up, Join(p.d, t, p.n, p.c, p.sib), RotateTree(u, p.d));
  }

  /** Black sibling with black children: made red, it moves the flaw one level up. */
  ghost function Reddened(p: Path, t: Tree): Tree
    requires p.Down? && p.sib.Fork?
  {
    Join(p.d, t, p.n, p.c, p.sib.(c := Red))
  }

  lemma ReddenedShort(p: Path, t: Tree, k: int)
    requires ShortAt(p, t, k) && p.Down? && IsBlack(t) && p.sib.Fork?
    requires IsBlack(p.sib) && IsBlack(p.sib.left) && IsBlack(p.sib.right)
    ensures ShortAt(p.up, Reddened(p, t), if p.c.Black? then k + 1 else k)
    ensures SameNodes(p, t, p.up, Reddened(p, t))
  {
    SiblingIsReal(p, t, k);
    SameBelow(p.up, Join(p.d, t, p.n, p.c, p.sib), Reddened(p, t));
  }

  /** Black sibling, inner child red: turned outwards, the red child is the outer one. */
  ghost function TurnedSibling(p: Path): Tree
    requires p.Down? && p.sib.Fork? && p.sib.Child(p.d).Fork?
  {
    RotateTree(Repainted(p.sib, Red, p.d, Black), p.d.Other())
  }

  lemma TurnedSiblingOrder(p: Path, t: Tree)
    requires p.Down? && p.sib.Fork? && p.sib.Child(p.d).Fork?
    ensures SameNodes(p, t, p.(sib := TurnedSibling(p)), t)
  {
    var near, v := p.sib.Child(p.d), Repainted(p.sib, Red, p.d, Black);
    assert InOrder(near.(c := Black)) == InOrder(near) && Nodes(near.(c := Black)) == Nodes(near);
    RotateShape(v, p.d.Other());
    SameBelow(p.up, Join(p.d, t, p.n, p.c, p.sib), Join(p.d, t, p.n, p.c, TurnedSibling(p)));
  }

  lemma TurnedSiblingShort(p: Path, t: Tree, k: int)
    requires ShortAt(p, t, k) && p.Down? && IsBlack(t) && p.sib.Fork? && IsBlack(p.sib)
    requires !IsBlack(p.sib.Child(p.d)) && IsBlack(p.sib.Child(p.d.Other()))
    ensures ShortAt(p.(sib := TurnedSibling(p)), t, k)
    ensures IsBlack(TurnedSibling(p)) && !IsBlack(TurnedSibling(p).Child(p.d.Other()))
    ensures SameNodes(p, t, p.(sib := TurnedSibling(p)), t)
  {
    SiblingIsReal(p, t, k);
    var near, far := p.sib.Child(p.d), p.sib.Child(p.d.Other());
    assert Balanced(near, k) && Balanced(far, k);
    assert Balanced(Join(p.d.Other(), far, p.sib.n, Red, near.Child(p.d.Other())), k);
    TurnedSiblingOrder(p, t);
  }

  /** Black sibling, outer child red: the last turn supplies the missing black node. */
  ghost function Supplied(p: Path, t: Tree): Tree
    requires p.Down? && p.sib.Fork? && p.sib.Child(p.d.Other()).Fork?
  {
    RotateTree(Join(p.d, t, p.n, Black, SupplySibling(p)), p.d)
  }

  lemma SuppliedOrder(p: Path, t: Tree)
    requires p.Down? && p.sib.Fork? && p.sib.Child(p.d.Other()).Fork?
    ensures SameNodes(p, t, p.up, Supplied(p, t))
  {
    var far := p.sib.Child(p.d.Other());
    assert InOrder(far.(c := Black)) == InOrder(far) && Nodes(far.(c := Black)) == Nodes(far);
    RotateShape(Join(p.d, t, p.n, Black, SupplySibling(p)), p.d);
    SameBelow(p.up, Join(p.d, t, p.n, p.c, p.sib), Supplied(p, t));
  }

  /** Nothing is short any more, seen from the root. */
  lemma SuppliedBalanced(p: Path, t: Tree, k: int) returns (j: int)
    requires ShortAt(p, t, k) && p.Down? && IsBlack(t)
    requires p.sib.Fork? && IsBlack(p.sib) && !IsBlack(p.sib.Child(p.d.Other()))
    ensures ShortAt(Top, Plug(p.up, Supplied(p, t)), j)
    ensures SameNodes(p, t, Top, Plug(p.up, Supplied(p, t)))
  {
    SiblingIsReal(p, t, k);
    SuppliedOrder(p, t);
    PlugBalanced(p.up, Supplied(p, t), if p.c.Black? then k + 2 else k + 1);
    PlugNodes(p.up, Supplied(p, t));
    j :| Balanced(Plug(p.up, Supplied(p, t)), j);
  }

  // ------------------------------------------------------------ the same in memory

  ghost function Colored(m: Memory, n: Node, c: Color): Memory {
    m.Put(n, m.At(n).(color := c))
  }

  /** The node in the hole sees its parent and its sibling. */
  lemma SiblingFacts(m: Memory, p: Path, t: Tree)
    requires m.Focus(p, t) && p.Down? && p.sib.Fork?
    ensures p.sib.n in m.cells && p.sib.n != m.sentinel && p.sib.n != p.n
    ensures m.cells[p.sib.n] == Cell(m.RootOf(p.sib.left), m.RootOf(p.sib.right), p.n, p.sib.c)
    ensures p.sib.left.Fork? ==>
      && p.sib.left.n in m.cells && m.cells[p.sib.left.n].color == p.sib.left.c
      && p.sib.left.n != m.sentinel && p.sib.left.n != p.sib.n && p.sib.left.n != p.n
    ensures p.sib.right.Fork? ==>
      && p.sib.right.n in m.cells && m.cells[p.sib.right.n].color == p.sib.right.c
      && p.sib.right.n != m.sentinel && p.sib.right.n != p.sib.n && p.sib.right.n != p.n
    ensures m.cells[p.n].color == p.c && m.cells[p.n].Child(p.d.Other()) == p.sib.n
  {
    assert m.Holds(p.sib, p.n) && Distinct(p.sib);
    assert m.Holds(p.sib.left, p.sib.n) && m.Holds(p.sib.right, p.sib.n);
  }

  ghost function RedSiblingMemory(m: Memory, p: Path): Memory
    requires p.Down? && p.sib.Fork?
  {
    Colored(Colored(m, p.sib.n, Black), p.n, Red)
  }

  lemma RedSiblingFocus(m: Memory, p: Path, t: Tree)
    requires m.Focus(p, t) && p.Down? && p.sib.Fork?
    ensures RedSiblingMemory(m, p).Focus(p.up, Join(p.d, t, p.n, Red, p.sib.(c := Black)))
    ensures SameStock(m, RedSiblingMemory(m, p))
  {
    PaintSib(m, p, t, Black);
    var q := p.(sib := p.sib.(c := Black));
    PaintUp(Colored(m, p.sib.n, Black), q, t, Red);
    FocusUp(RedSiblingMemory(m, p), q.(c := Red), t);
  }

  /** After the turn the hole is two levels below where its parent was. */
  lemma LoweredFocus(m: Memory, p: Path, t: Tree)
    requires p.Down? && p.sib.Fork?
    requires m.Focus(p.up, Join(p.d, Join(p.d, t, p.n, Red, p.sib.Child(p.d)), p.sib.n, Black, p.sib.Child(p.d.Other())))
    ensures m.Focus(LoweredPath(p, p.sib, Black, Red), t)
  {
    var u := Join(p.d, t, p.n, Red, p.sib.Child(p.d));
    FocusDown(m, p.up, Join(p.d, u, p.sib.n, Black, p.sib.Child(p.d.Other())), p.d);
    FocusDown(m, LoweredPath(p, p.sib, Black, Red).up, u, p.d);
  }

  /** The sibling in focus. */
  ghost function SiblingPath(p: Path, t: Tree): Path
    requires p.Down?
  {
    Down(p.up, p.d.Other(), p.n, p.c, t)
  }

  lemma FocusAcross(m: Memory, p: Path, t: Tree)
    requires m.Focus(p, t) && p.Down?
    ensures m.Focus(SiblingPath(p, t), p.sib)
  {
    FocusUp(m, p, t);
    FocusDown(m, p.up, Join(p.d, t, p.n, p.c, p.sib), p.d.Other());
  }

  /** t in colour own, its d-child in colour c. */
  ghost function Repainted(t: Tree, own: Color, d: Side, c: Color): Tree
    requires t.Fork? && t.Child(d).Fork?
  {
    Join(d, t.Child(d).(c := c), t.n, own, t.Child(d.Other()))
  }

  lemma PaintChild(m: Memory, p: Path, t: Tree, d: Side, c: Color)
    requires m.Focus(p, t) && t.Fork? && t.Child(d).Fork?
    ensures Colored(m, t.Child(d).n, c).Focus(p, Repainted(t, t.c, d, c))
    ensures SameStock(m, Colored(m, t.Child(d).n, c))
  {
    FocusDown(m, p, t, d);
    PaintFocus(m, Lower(p, t, d), t.Child(d), c);
    FocusUp(Colored(m, t.Child(d).n, c), Lower(p, t, d), t.Child(d).(c := c));
  }

  /** Lines 248-249 and 279-280. */
  ghost function TurnSiblingMemory(m: Memory, p: Path): Memory
    requires p.Down? && p.sib.Fork? && p.sib.Child(p.d).Fork?
  {
    Colored(Colored(m, p.sib.Child(p.d).n, Black), p.sib.n, Red)
  }

  lemma TurnSiblingFocus(m: Memory, p: Path, t: Tree)
    requires m.Focus(p, t) && p.Down? && p.sib.Fork? && p.sib.Child(p.d).Fork?
    ensures TurnSiblingMemory(m, p).Focus(SiblingPath(p, t), Repainted(p.sib, Red, p.d, Black))
    ensures SameStock(m, TurnSiblingMemory(m, p))
  {
    FocusAcross(m, p, t);
    PaintChild(m, SiblingPath(p, t), p.sib, p.d, Black);
    PaintFocus(Colored(m, p.sib.Child(p.d).n, Black), SiblingPath(p, t), Repainted(p.sib, p.sib.c, p.d, Black), Red);
  }

  /** Lines 254-256 and 285-287. */
  ghost function SupplyMemory(m: Memory, p: Path): Memory
    requires p.Down? && p.sib.Fork? && p.sib.Child(p.d.Other()).Fork?
  {
    Colored(Colored(Colored(m, p.sib.n, p.c), p.n, Black), p.sib.Child(p.d.Other()).n, Black)
  }

  /** The sibling with its new colours. */
  ghost function SupplySibling(p: Path): Tree
    requires p.Down? && p.sib.Fork? && p.sib.Child(p.d.Other()).Fork?
  {
    Repainted(p.sib, p.c, p.d.Other(), Black)
  }

  lemma SupplyFocus(m: Memory, p: Path, t: Tree)
    requires m.Focus(p, t) && p.Down? && p.sib.Fork? && p.sib.Child(p.d.Other()).Fork?
    ensures SupplyMemory(m, p).Focus(p.up, Join(p.d, t, p.n, Black, SupplySibling(p)))
    ensures SameStock(m, SupplyMemory(m, p))
  {
    var m1, q1 := Colored(m, p.sib.n, p.c), p.(sib := p.sib.(c := p.c));
    PaintSib(m, p, t, p.c);
    var m2, q2 := Colored(m1, p.n, Black), q1.(c := Black);
    PaintUp(m1, q1, t, Black);
    FocusAcross(m2, q2, t);
    PaintChild(m2, SiblingPath(q2, t), q2.sib, p.d.Other(), Black);
    FocusUp(SupplyMemory(m, p), SiblingPath(q2, t), SupplySibling(p));
  }

  /** When the loop stops, painting the node at the hole black leaves a red-black tree. */
  lemma DeleteDone(p: Path, t: Tree, k: int)
    requires ShortAt(p, t, k) && (p.Top? || !IsBlack(t))
    ensures RedBlack(Plug(p, Blackened(t)))
  {
    if p.Down? {
      PlugBalanced(p, Blackened(t), k + 1);
    }
  }

  lemma DeleteDoneNodes(p: Path, t: Tree)
    ensures InOrder(Plug(p, Blackened(t))) == InOrder(Plug(p, t))
    ensures Nodes(Plug(p, Blackened(t))) == PathNodes(p) + Nodes(t)
  {
    PlugInOrder(p, t);
    PlugInOrder(p, Blackened(t));
    PlugNodes(p, Blackened(t));
  }

  /** Line 295 may paint the sentinel, which is harmless. */
  lemma PaintGap(m: Memory, p: Path, t: Tree)
    requires m.Focus(p, t) && m.At(m.sentinel).color.Black?
    ensures Colored(m, m.RootOf(t), Black).Focus(p, Blackened(t))
    ensures Colored(m, m.RootOf(t), Black).At(m.sentinel).color.Black?
  {
    if t.Fork? {
      PaintFocus(m, p, t, Black);
    } else {
      FocusFrame(m, Colored(m, m.sentinel, Black), p, t);
    }
  }
}
