/**
 What taking a node out does to the shape of the tree and to its memory, before any fix-up.
 Line numbers are those of rbtree.c.
 */
module RbSplice {
  import opened RbNode
  import opened RbShape
  import opened RbMemory
  import opened RbShort

  // ------------------------------------------------------------ the minimum

  function MinTree(t: Tree): (r: Tree)
    requires t.Fork?
    ensures r.Fork? && r.left.Leaf?
  {
    if t.left.Leaf? then t else MinTree(t.left)
  }

  /** The path to the minimum of t, when t sits in the hole of p. */
  function MinPath(p: Path, t: Tree): Path
    requires t.Fork?
    decreases t
  {
    if t.left.Leaf? then p else MinPath(Down(p, L, t.n, t.c, t.right), t.left)
  }

  /** t with its minimum replaced by the minimum's right child. */
  function DropMin(t: Tree): Tree
    requires t.Fork?
  {
    if t.left.Leaf? then t.right else Fork(DropMin(t.left), t.n, t.c, t.right)
  }

  lemma {:induction false} MinFacts(p: Path, t: Tree)
    requires t.Fork?
    ensures MinTree(t).n in Nodes(t)
    ensures InOrder(t) == [MinTree(t).n] + InOrder(DropMin(t))
    ensures Nodes(t) == Nodes(DropMin(t)) + {MinTree(t).n}
    ensures Plug(MinPath(p, t), MinTree(t)) == Plug(p, t)
    ensures Plug(MinPath(p, t), MinTree(t).right) == Plug(p, DropMin(t))
    decreases t
  {
    if t.left.Fork? {
      MinFacts(Down(p, L, t.n, t.c, t.right), t.left);
    }
  }

  lemma {:induction false} DropMinDistinct(t: Tree)
    requires t.Fork? && Distinct(t)
    ensures Distinct(DropMin(t)) && MinTree(t).n !in Nodes(DropMin(t))
  {
    if t.left.Fork? {
      MinFacts(Top, t.left);
      DropMinDistinct(t.left);
    }
  }

  /** The parent of the minimum, when that is not the root of t. */
  function MinParent(t: Tree): Node
    requires t.Fork? && t.left.Fork?
  {
    if t.left.left.Leaf? then t.n else MinParent(t.left)
  }

  lemma {:induction false} MinPathTop(p: Path, t: Tree)
    requires t.Fork? && p.Down?
    ensures MinPath(p, t).Down?
    ensures MinPath(p, t).n == if t.left.Fork? then MinParent(t) else p.n
    ensures MinPath(p, t).d == if t.left.Fork? then L else p.d
    ensures t.left.Fork? ==> MinParent(t) in Nodes(t) && MinParent(t) in Nodes(DropMin(t))
    decreases t
  {
    if t.left.Fork? {
      MinPathTop(Down(p, L, t.n, t.c, t.right), t.left);
    }
  }

  lemma {:induction false} MinFocus(m: Memory, p: Path, t: Tree)
    requires t.Fork? && m.Focus(p, t)
    ensures m.Focus(MinPath(p, t), MinTree(t))
    decreases t
  {
    if t.left.Fork? {
      FocusDown(m, p, t, L);
      MinFocus(m, Lower(p, t, L), t.left);
    }
  }

  /** Focus moves down the same spine once the minimum is gone. */
  lemma {:induction false} DropMinFocus(m: Memory, p: Path, t: Tree)
    requires t.Fork? && m.Focus(p, DropMin(t))
    ensures m.Focus(MinPath(p, t), MinTree(t).right)
    decreases t
  {
    if t.left.Fork? {
      FocusDown(m, p, DropMin(t), L);
      DropMinFocus(m, Lower(p, t, L), t.left);
    }
  }

  /** Paths that differ in their nodes only. */
  predicate Alike(p: Path, q: Path) {
    if p.Top? || q.Top? then p == q else p.d == q.d && p.c == q.c && p.sib == q.sib && Alike(p.up, q.up)
  }

  lemma {:induction false} AlikeFits(p: Path, q: Path, k: int)
    requires Alike(p, q) && Fits(p, k)
    ensures Fits(q, k)
  {
    if p.Down? {
      AlikeFits(p.up, q.up, if p.c.Black? then k + 1 else k);
    }
  }

  lemma {:induction false} AlikeMinPath(p: Path, q: Path, t: Tree)
    requires Alike(p, q) && t.Fork?
    ensures Alike(MinPath(p, t), MinPath(q, t))
    decreases t
  {
    if t.left.Fork? {
      AlikeMinPath(Lower(p, t, L), Lower(q, t, L), t.left);
    }
  }

  lemma {:induction false} AlikeSelf(p: Path)
    ensures Alike(p, p)
  {
    if p.Down? {
      AlikeSelf(p.up);
    }
  }

  // ------------------------------------------------------------ colours after a node is taken out

  /** Taking out the top of t, which has a child u at most: a red node leaves no flaw, a black one a gap. */
  lemma TakenOut(p: Path, q: Path, t: Tree, u: Tree) returns (k: int)
    requires RedBlack(Plug(p, t)) && t.Fork? && p.Down? && Alike(p, q)
    requires (t.left.Leaf? && u == t.right) || (t.right.Leaf? && u == t.left)
    ensures if t.c.Red? then RedBlack(Plug(q, u)) else ShortAt(q, u, k)
  {
    var j := UnplugBalanced(p, t);
    AlikeFits(p, q, j);
    k := j - 1;
    if t.c.Red? {
      PlugBalanced(q, u, j);
    }
  }

  // ------------------------------------------------------------ memory: a node with one child at most

  /** Lines 175-183: u moves up into the hole of p; its top links up even if it is the sentinel. */
  ghost function Bypassed(m: Memory, p: Path, u: Tree): Memory
    requires p.Down?
  {
    var m1 := m.Put(p.n, m.At(p.n).WithChild(p.d, m.RootOf(u)));
    m1.Put(m.RootOf(u), m1.At(m.RootOf(u)).(parent := p.n))
  }

  ghost predicate OnlyChild(t: Tree, u: Tree) {
    t.Fork? && ((t.left.Leaf? && u == t.right) || (t.right.Leaf? && u == t.left))
  }

  lemma HereOrder(p: Path, t: Tree, u: Tree) returns (a: seq<Node>, b: seq<Node>)
    requires OnlyChild(t, u)
    ensures InOrder(Plug(p, t)) == a + [t.n] + b && InOrder(Plug(p, u)) == a + b
    ensures PathNodes(p) + Nodes(u) + {t.n} == PathNodes(p) + Nodes(t)
  {
    PlugInOrder(p, t);
    PlugInOrder(p, u);
    if t.left.Leaf? {
      a, b := Before(p), InOrder(u) + After(p);
    } else {
      a, b := Before(p) + InOrder(u), After(p);
    }
  }

  lemma BypassedFocus(m: Memory, p: Path, t: Tree, u: Tree)
    requires m.Focus(p, t) && p.Down? && OnlyChild(t, u)
    ensures Bypassed(m, p, u).Focus(p, u)
    ensures Bypassed(m, p, u).At(m.RootOf(u)).parent == p.n
    ensures Bypassed(m, p, u).cells.Keys == m.cells.Keys
    ensures Bypassed(m, p, u).At(m.sentinel).color == m.At(m.sentinel).color
  {
    var m' := Bypassed(m, p, u);
    assert m.Holds(u, t.n) && Distinct(u);
    HoldsFrame(m, m', u, t.n, p.n);
    RehungFocus(m, m', p, t.n, u);
  }

  /** Line 162: the top of t was the root; its only child takes over with its parent link as it was. */
  lemma NewRootFocus(m: Memory, t: Tree, u: Tree)
    requires m.Focus(Top, t) && OnlyChild(t, u)
    ensures m.(root := m.RootOf(u)).Focus(Top, u)
  {
    assert m.Holds(u, t.n) && Distinct(u);
    HoldsFrame(m, m.(root := m.RootOf(u)), u, t.n, t.n);
  }

  // ------------------------------------------------------------ memory: a node with two children

  /** The cell of x after the minimum of t has left and t hangs below par. */
  ghost function DropMinCell(m: Memory, t: Tree, par: Node, x: Node): Cell
    requires t.Fork?
  {
    var u := MinTree(t).right;
    var c0 := m.At(x);
    var c1 := if t.left.Fork? && x == MinParent(t) then c0.(left := m.RootOf(u)) else c0;
    if t.left.Fork? && x == t.n then c1.(parent := par)
    else if u.Fork? && x == u.n then c1.(parent := if t.left.Fork? then MinParent(t) else par)
    else c1
  }

  /** Where the nodes around the minimum lie. */
  lemma {:induction false} MinSpots(t: Tree)
    requires t.Fork? && Distinct(t)
    ensures Nodes(MinTree(t)) <= Nodes(t) && Distinct(MinTree(t))
    ensures t.left.Fork? ==> t.n !in Nodes(MinTree(t))
    ensures t.left.Fork? ==> Nodes(MinTree(t)) <= Nodes(t.left) && MinParent(t) in Nodes(t.left) + {t.n}
    ensures t.left.Fork? ==> MinParent(t) !in Nodes(MinTree(t))
  {
    if t.left.Fork? {
      MinSpots(t.left);
    }
  }

  lemma DropMinCellBelow(m: Memory, t: Tree, par: Node?, par': Node, x: Node)
    requires t.Fork? && t.left.Fork? && m.Holds(t, par) && Distinct(t) && x in Nodes(t.left)
    ensures DropMinCell(m, t, par', x) == DropMinCell(m, t.left, t.n, x)
  {
    MinSpots(t);
    MinSpots(t.left);
    assert m.Holds(t.left, t.n);
  }

  lemma {:induction false} DropMinHolds(m: Memory, m': Memory, t: Tree, par: Node?, par': Node)
    requires t.Fork? && m.Holds(t, par) && Distinct(t) && m'.sentinel == m.sentinel
    requires forall x :: x in Nodes(DropMin(t)) ==> x in m'.cells && m'.At(x) == DropMinCell(m, t, par', x)
    ensures m'.Holds(DropMin(t), par')
    decreases t
  {
    var u := MinTree(t).right;
    if t.left.Leaf? {
      HoldsFrame(m, m', u, t.n, par');
    } else {
      MinSpots(t);
      MinSpots(t.left);
      MinFacts(Top, t.left);
      assert t.n in Nodes(DropMin(t));
      forall x | x in Nodes(t.right)
        ensures x in m'.cells && m'.At(x) == m.At(x)
      {
        assert x in Nodes(DropMin(t));
      }
      HoldsFrame(m, m', t.right, t.n, t.n);
      forall x | x in Nodes(DropMin(t.left))
        ensures x in m'.cells && m'.At(x) == DropMinCell(m, t.left, t.n, x)
      {
        assert x in Nodes(DropMin(t));
        DropMinCellBelow(m, t, par, par', x);
      }
      DropMinHolds(m, m', t.left, t.n, t.n);
    }
  }

  // Lines 175-216 for the node n at the top of t, whose two children are real and whose successor is s.

  /** Lines 175-192: s gives way to its right child. */
  ghost function Detached(m: Memory, t: Tree): Memory
    requires t.Fork? && t.right.Fork?
  {
    var n, s, u := t.n, MinTree(t.right).n, m.RootOf(MinTree(t.right).right);
    var q := if t.right.left.Fork? then MinParent(t.right) else n;
    var m1 := m.Put(q, m.At(q).WithChild(if t.right.left.Fork? then L else R, u));
    m1.Put(u, m1.At(u).(parent := if q == n then s else q))
  }

  /** Lines 194-197: s takes over the links and the colour of n. */
  ghost function Placed(m: Memory, s: Node, n: Node): Memory {
    var m1 := m.Put(s, m.At(s).(left := m.At(n).left));
    var m2 := m1.Put(s, m1.At(s).(right := m1.At(n).right));
    var m3 := m2.Put(s, m2.At(s).(parent := m2.At(n).parent));
    m3.Put(s, m3.At(s).(color := m3.At(n).color))
  }

  /** Lines 199-216: the nodes around s link to it. */
  ghost function Welcomed(m: Memory, p: Path, s: Node, l: Node, r: Node): Memory {
    var m1 := Rehung(m, p, s);
    var m2 := m1.Put(l, m1.At(l).(parent := s));
    if r != m.sentinel then m2.Put(r, m2.At(r).(parent := s)) else m2
  }

  ghost function Spliced(m: Memory, p: Path, t: Tree): Memory
    requires t.Fork? && t.left.Fork? && t.right.Fork?
  {
    var s := MinTree(t.right).n;
    Welcomed(Placed(Detached(m, t), s, t.n), p, s, t.left.n, m.RootOf(DropMin(t.right)))
  }

  ghost function SplicedTree(t: Tree): Tree
    requires t.Fork? && t.right.Fork?
  {
    Fork(t.left, MinTree(t.right).n, t.c, DropMin(t.right))
  }

  /** The same, cell by cell. */
  ghost predicate IsSpliced(m: Memory, m': Memory, p: Path, t: Tree)
    requires t.Fork? && t.left.Fork? && t.right.Fork?
  {
    var n, s := t.n, MinTree(t.right).n;
    && m'.cells.Keys == m.cells.Keys && m'.sentinel == m.sentinel
    && m'.At(s) == Cell(t.left.n, m.RootOf(DropMin(t.right)), m.At(n).parent, m.At(n).color)
    && m'.At(t.left.n) == m.At(t.left.n).(parent := s)
    && (forall x :: x in Nodes(t.left) && x != t.left.n ==> m'.At(x) == m.At(x))
    && (forall x :: x in Nodes(DropMin(t.right)) ==> m'.At(x) == DropMinCell(m, t.right, s, x))
    && (forall x :: x in PathNodes(p) && (p.Down? ==> x != p.n) ==> m'.At(x) == m.At(x))
    && (p.Down? ==> m'.At(p.n) == m.At(p.n).WithChild(p.d, s))
    && m'.root == (if p.Down? then m.root else s)
    && m'.At(m.sentinel).color == m.At(m.sentinel).color
  }

  /** The nodes a splice writes to are different nodes. */
  lemma SpliceNames(m: Memory, p: Path, t: Tree)
    requires m.Focus(p, t) && t.Fork? && t.left.Fork? && t.right.Fork?
    ensures var n, s, u, r := t.n, MinTree(t.right).n, MinTree(t.right).right, t.right;
      && {n, s, t.left.n} <= m.cells.Keys && m.sentinel !in {n, s, t.left.n}
      && n != s && t.left.n != n && t.left.n != s && (p.Down? ==> p.n !in {n, s, t.left.n, m.RootOf(u)})
      && (u.Fork? ==> u.n in m.cells && u.n !in {n, s, t.left.n})
      && m.cells[n].left == t.left.n && m.cells[n].right == r.n
      && m.RootOf(DropMin(r)) == (if r.left.Fork? then r.n else m.RootOf(u))
      && (r.left.Fork? ==> MinParent(r) in m.cells && MinParent(r) !in {n, s, t.left.n, m.sentinel, m.RootOf(u)})
      && (r.left.Fork? && p.Down? ==> p.n != MinParent(r) && p.n != r.n)
      && (r.left.Fork? ==> r.n in m.cells && r.n !in {n, s, t.left.n, m.sentinel, m.RootOf(u)})
      && (r.left.Leaf? ==> r.n == s)
  {
    MinSpots(t.right);
    MinFacts(Top, t.right);
    DropMinDistinct(t.right);
    assert m.Holds(t.right, t.n) && m.Holds(t.left, t.n);
  }

  lemma SplicedOther(m: Memory, p: Path, t: Tree, x: Node)
    requires t.Fork? && t.left.Fork? && t.right.Fork?
    requires x != MinTree(t.right).n && x != t.left.n && x != m.RootOf(MinTree(t.right).right)
    requires x != m.RootOf(DropMin(t.right)) && (p.Down? ==> x != p.n)
    requires x != if t.right.left.Fork? then MinParent(t.right) else t.n
    ensures Spliced(m, p, t).At(x) == m.At(x)
  {
  }

  lemma SplicedNamed(m: Memory, p: Path, t: Tree)
    requires m.Focus(p, t) && t.Fork? && t.left.Fork? && t.right.Fork?
    ensures var m', s := Spliced(m, p, t), MinTree(t.right).n;
      && m'.cells.Keys == m.cells.Keys && m'.sentinel == m.sentinel
      && m'.At(s) == Cell(t.left.n, m.RootOf(DropMin(t.right)), m.At(t.n).parent, m.At(t.n).color)
      && m'.At(t.left.n) == m.At(t.left.n).(parent := s)
      && (p.Down? ==> m'.At(p.n) == m.At(p.n).WithChild(p.d, s))
      && m'.root == (if p.Down? then m.root else s)
      && m'.At(m.sentinel).color == m.At(m.sentinel).color
  {
    SpliceNames(m, p, t);
  }

  lemma SplicedSpine(m: Memory, p: Path, t: Tree, x: Node)
    requires m.Focus(p, t) && t.Fork? && t.left.Fork? && t.right.Fork? && x in Nodes(DropMin(t.right))
    ensures Spliced(m, p, t).At(x) == DropMinCell(m, t.right, MinTree(t.right).n, x)
  {
    SpliceNames(m, p, t);
    MinFacts(Top, t.right);
    DropMinDistinct(t.right);
  }

  lemma SplicedCells(m: Memory, p: Path, t: Tree)
    requires m.Focus(p, t) && t.Fork? && t.left.Fork? && t.right.Fork?
    ensures IsSpliced(m, Spliced(m, p, t), p, t)
  {
    var m' := Spliced(m, p, t);
    SplicedNamed(m, p, t);
    forall x | x in Nodes(DropMin(t.right))
      ensures m'.At(x) == DropMinCell(m, t.right, MinTree(t.right).n, x)
    {
      SplicedSpine(m, p, t, x);
    }
    MinSpots(t.right);
    MinFacts(Top, t.right);
    forall x | (x in Nodes(t.left) && x != t.left.n) || (x in PathNodes(p) && (p.Down? ==> x != p.n))
      ensures m'.At(x) == m.At(x)
    {
      SplicedOther(m, p, t, x);
    }
  }

  lemma SplicedHolds(m: Memory, m': Memory, p: Path, t: Tree)
    requires m.Focus(p, t) && t.Fork? && t.left.Fork? && t.right.Fork? && IsSpliced(m, m', p, t)
    ensures m'.Focus(p, SplicedTree(t))
  {
    var s := MinTree(t.right).n;
    MinFacts(Top, t.right);
    DropMinDistinct(t.right);
    assert m.Holds(t.left, t.n) && m.Holds(t.right, t.n);
    HoldsFrame(m, m', t.left, t.n, s);
    DropMinHolds(m, m', t.right, t.n, s);
    RehungFocus(m, m', p, t.n, SplicedTree(t));
  }

  /** What lines 199-216 find in memory. */
  lemma PlacedFacts(m: Memory, p: Path, t: Tree)
    requires m.Focus(p, t) && t.Fork? && t.left.Fork? && t.right.Fork?
    ensures var s, m' := MinTree(t.right).n, Placed(Detached(m, t), MinTree(t.right).n, t.n);
      && m'.cells.Keys == m.cells.Keys && m'.sentinel == m.sentinel && m'.root == m.root
      && m'.At(s).left == t.left.n && m'.At(s).right == m.RootOf(DropMin(t.right))
      && m'.At(t.n).parent == m.At(t.n).parent && (p.Down? ==> m'.At(p.n) == m.At(p.n))
  {
    SpliceNames(m, p, t);
  }

  /** The path to the gap after the splice. */
  ghost function GapPath(p: Path, t: Tree): Path
    requires t.Fork? && t.right.Fork?
  {
    MinPath(Lower(p, SplicedTree(t), R), t.right)
  }

  ghost function GapTree(t: Tree): Tree
    requires t.Fork? && t.right.Fork?
  {
    MinTree(t.right).right
  }

  lemma SplicedFocus(m: Memory, p: Path, t: Tree)
    requires m.Focus(p, t) && t.Fork? && t.left.Fork? && t.right.Fork?
    ensures Spliced(m, p, t).Focus(GapPath(p, t), GapTree(t)) && GapPath(p, t).Down?
    ensures Spliced(m, p, t).At(m.RootOf(GapTree(t))).parent == GapPath(p, t).n
    ensures Spliced(m, p, t).cells.Keys == m.cells.Keys && Spliced(m, p, t).sentinel == m.sentinel
    ensures Spliced(m, p, t).At(m.sentinel).color == m.At(m.sentinel).color
  {
    var m' := Spliced(m, p, t);
    SplicedCells(m, p, t);
    SplicedHolds(m, m', p, t);
    FocusDown(m', p, SplicedTree(t), R);
    DropMinFocus(m', Lower(p, SplicedTree(t), R), t.right);
    MinPathTop(Lower(p, SplicedTree(t), R), t.right);
    SplicedSentinel(m, p, t);
    if GapTree(t).Fork? {
      HoleFacts(m', GapPath(p, t), GapTree(t));
    }
  }

  /** When the successor has no child, the sentinel is made to link up to the gap. */
  lemma SplicedSentinel(m: Memory, p: Path, t: Tree)
    requires m.Focus(p, t) && t.Fork? && t.left.Fork? && t.right.Fork?
    ensures GapTree(t).Leaf? ==>
      Spliced(m, p, t).At(m.sentinel).parent == if t.right.left.Fork? then MinParent(t.right) else MinTree(t.right).n
  {
    MinSpots(t.right);
    MinFacts(Top, t.right);
    HoleFacts(m, p, t);
  }

  /** Taking the top of t out in favour of its successor: colours. */
  lemma SplicedColors(p: Path, t: Tree) returns (k: int)
    requires RedBlack(Plug(p, t)) && t.Fork? && t.right.Fork?
    ensures if MinTree(t.right).c.Red? then RedBlack(Plug(GapPath(p, t), GapTree(t)))
      else ShortAt(GapPath(p, t), GapTree(t), k)
  {
    var p0, p1 := Lower(p, t, R), Lower(p, SplicedTree(t), R);
    MinFacts(p0, t.right);
    MinPathTop(p0, t.right);
    AlikeSelf(p);
    AlikeMinPath(p0, p1, t.right);
    k := TakenOut(MinPath(p0, t.right), GapPath(p, t), MinTree(t.right), GapTree(t));
  }

  /** The whole tree after the splice. */
  lemma SplicedWhole(p: Path, t: Tree)
    requires t.Fork? && t.right.Fork?
    ensures Plug(GapPath(p, t), GapTree(t)) == Plug(p, SplicedTree(t))
  {
    MinFacts(Lower(p, SplicedTree(t), R), t.right);
  }

  /** Taking the top of t out in favour of its successor: order and nodes. */
  lemma SplicedOrder(p: Path, t: Tree) returns (a: seq<Node>, b: seq<Node>)
    requires t.Fork? && t.right.Fork?
    ensures InOrder(Plug(p, t)) == a + [t.n] + b
    ensures InOrder(Plug(GapPath(p, t), GapTree(t))) == a + b
    ensures PathNodes(GapPath(p, t)) + Nodes(GapTree(t)) + {t.n} == PathNodes(p) + Nodes(t)
  {
    SplicedWhole(p, t);
    MinFacts(Top, t.right);
    PlugInOrder(p, t);
    PlugInOrder(p, SplicedTree(t));
    PlugNodes(p, SplicedTree(t));
    PlugNodes(GapPath(p, t), GapTree(t));
    var l, s, r := InOrder(t.left), [MinTree(t.right).n], InOrder(DropMin(t.right));
    a, b := Before(p) + l, s + r + After(p);
    Flatten(Before(p), l, [t.n], s + r, After(p));
    FlattenMore(Before(p), l, s, r, After(p));
  }

  lemma FlattenMore<T>(a: seq<T>, b: seq<T>, c: seq<T>, d: seq<T>, e: seq<T>)
    ensures a + (b + c + d) + e == (a + b) + (c + d + e)
  {
  }

  /** The top of t is in neither part of what is left. */
  lemma SplicedOut(p: Path, t: Tree)
    requires t.Fork? && t.right.Fork? && Distinct(t) && PathNodes(p) !! Nodes(t)
    ensures t.n !in PathNodes(GapPath(p, t)) && t.n !in Nodes(GapTree(t))
  {
    SplicedWhole(p, t);
    MinFacts(Top, t.right);
    PlugNodes(p, SplicedTree(t));
    PlugNodes(GapPath(p, t), GapTree(t));
  }
}
