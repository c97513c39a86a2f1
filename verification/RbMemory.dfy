/**
 The links and colours of all nodes at one moment, and what it means that they spell out a
 given tree. Lemmas about a step of the algorithm are lemmas about two such moments.
 */
module RbMemory {
  import opened RbNode
  import opened RbShape

  datatype Cell = Cell(left: Node?, right: Node?, parent: Node?, color: Color) {
    function Child(d: Side): Node? { if d.L? then left else right }
    function WithChild(d: Side, n: Node?): Cell { if d.L? then this.(left := n) else this.(right := n) }
  }

  datatype Memory = Memory(cells: map<Node, Cell>, root: Node, sentinel: Node) {
    function At(n: Node): Cell {
      if n in cells then cells[n] else Cell(null, null, null, Black)
    }

    function Put(n: Node, c: Cell): Memory {
      this.(cells := cells[n := c])
    }

    function Without(n: Node): Memory {
      this.(cells := cells - {n})
    }

    function RootOf(t: Tree): Node {
      if t.Leaf? then sentinel else t.n
    }

    /** The cells of t spell out t, below the node par. */
    ghost predicate Holds(t: Tree, par: Node?)
      decreases t
    {
      match t
      case Leaf => true
      case Fork(l, n, c, r) =>
        n in cells && cells[n] == Cell(RootOf(l), RootOf(r), par, c) && Holds(l, n) && Holds(r, n)
    }

    /** The cells of p spell out p, from root down to the node hole; the parent of root is free. */
    ghost predicate PathHolds(p: Path, hole: Node)
      decreases p
    {
      match p
      case Top => root == hole
      case Down(up, d, n, c, sib) =>
        && n in cells && cells[n].color == c
        && cells[n].Child(d) == hole && cells[n].Child(d.Other()) == RootOf(sib)
        && (up.Down? ==> cells[n].parent == up.n)
        && Holds(sib, n) && PathHolds(up, n)
    }

    /** What links up from the top of t when it sits in the hole of p. */
    ghost function Above(p: Path, t: Tree): Node? {
      if p.Down? then p.n else At(RootOf(t)).parent
    }

    ghost predicate Focus(p: Path, t: Tree) {
      && PathDistinct(p) && Distinct(t) && PathNodes(p) !! Nodes(t)
      && PathNodes(p) + Nodes(t) + {sentinel} <= cells.Keys
      && sentinel !in PathNodes(p) && sentinel !in Nodes(t)
      && PathHolds(p, RootOf(t)) && Holds(t, Above(p, t))
    }
  }

  // ------------------------------------------------------------ framing

  /** No node comes or goes, and the cell of the sentinel is left alone. */
  ghost predicate SameStock(m: Memory, m': Memory) {
    m'.cells.Keys == m.cells.Keys && m'.sentinel == m.sentinel && m'.At(m.sentinel) == m.At(m.sentinel)
  }

  lemma {:induction false} HoldsFrame(m: Memory, m': Memory, t: Tree, par: Node?, par': Node?)
    requires m.Holds(t, par) && Distinct(t) && m'.sentinel == m.sentinel
    requires forall n :: n in Nodes(t) ==> n in m'.cells && (n == m.RootOf(t) || m'.At(n) == m.At(n))
    requires t.Fork? ==> m'.At(t.n) == m.At(t.n).(parent := par')
    ensures m'.Holds(t, par')
  {
    if t.Fork? {
      HoldsFrame(m, m', t.left, t.n, t.n);
      HoldsFrame(m, m', t.right, t.n, t.n);
    }
  }

  lemma {:induction false} PathFrame(m: Memory, m': Memory, p: Path, hole: Node)
    requires m.PathHolds(p, hole) && PathDistinct(p) && m'.sentinel == m.sentinel
    requires forall n :: n in PathNodes(p) ==> n in m'.cells && m'.At(n) == m.At(n)
    requires p.Down? ==> m.root == m'.root
    requires p.Top? ==> m'.root == hole
    ensures m'.PathHolds(p, hole)
  {
    if p.Down? {
      assert m'.At(p.n) == m.At(p.n);
      HoldsFrame(m, m', p.sib, p.n, p.n);
      PathFrame(m, m', p.up, p.n);
    }
  }

  // ------------------------------------------------------------ the hole and what fills it

  lemma {:induction false} RootOnPath(m: Memory, p: Path, hole: Node)
    requires m.PathHolds(p, hole)
    ensures if p.Top? then m.root == hole else m.root in PathNodes(p)
  {
    if p.Down? {
      RootOnPath(m, p.up, p.n);
    }
  }

  /** What the hole of p looks like from the node n that fills it. */
  lemma HoleFacts(m: Memory, p: Path, t: Tree)
    requires m.Focus(p, t)
    ensures p.Top? ==> m.root == m.RootOf(t)
    ensures p.Down? ==>
      && p.n in m.cells && p.n != m.sentinel && p.n !in Nodes(t)
      && m.cells[p.n].Child(p.d) == m.RootOf(t) && m.root in PathNodes(p)
    ensures t.Fork? ==> t.n in m.cells && t.n != m.sentinel && t.n !in PathNodes(p)
    ensures t.Fork? && p.Down? ==>
      m.cells[t.n].parent == p.n && m.cells[p.n].Child(p.d.Other()) != t.n && m.root != t.n
  {
    RootOnPath(m, p, m.RootOf(t));
  }

  /** The nodes around a hole two levels below some node. */
  lemma FamilyFacts(m: Memory, p: Path, t: Tree)
    requires m.Focus(p, t) && p.Down? && p.up.Down?
    ensures m.cells.Keys >= {p.n, p.up.n} && p.n != p.up.n && p.n != m.sentinel && p.up.n != m.sentinel
    ensures m.cells[p.n].parent == p.up.n && m.cells[p.n].color == p.c && m.cells[p.up.n].color == p.up.c
    ensures m.cells[p.n].Child(p.d) == m.RootOf(t) && m.cells[p.n].Child(p.d.Other()) == m.RootOf(p.sib)
    ensures m.cells[p.up.n].Child(p.up.d) == p.n && m.cells[p.up.n].Child(p.up.d.Other()) == m.RootOf(p.up.sib)
    ensures m.RootOf(p.up.sib) in m.cells && m.RootOf(p.up.sib) != p.n && m.RootOf(p.up.sib) != p.up.n
    ensures p.up.sib.Fork? ==>
      p.up.sib.n != m.sentinel && m.cells[p.up.sib.n].parent == p.up.n && m.cells[p.up.sib.n].color == p.up.sib.c
    ensures t.Fork? ==>
      t.n in m.cells && t.n != p.n && t.n != p.up.n && m.cells[t.n].parent == p.n && m.cells[t.n].color == t.c
  {
    assert m.PathHolds(p.up, p.n) && PathDistinct(p.up);
  }

  /** The memory after the hole of p is made to point to n. */
  ghost function Rehung(m: Memory, p: Path, n: Node): Memory {
    if p.Top? then m.(root := n) else m.Put(p.n, m.At(p.n).WithChild(p.d, n))
  }

  /** Only the hole of p changes: it now points to the top of t. */
  lemma RehungFocus(m: Memory, m': Memory, p: Path, hole: Node, t: Tree)
    requires PathDistinct(p) && Distinct(t) && PathNodes(p) !! Nodes(t)
    requires m'.sentinel == m.sentinel && PathNodes(p) + Nodes(t) + {m.sentinel} <= m'.cells.Keys
    requires m.sentinel !in PathNodes(p) && m.sentinel !in Nodes(t)
    requires m.PathHolds(p, hole) && m'.Holds(t, if p.Down? then p.n else m'.At(m'.RootOf(t)).parent)
    requires forall n :: n in PathNodes(p) && (p.Down? ==> n != p.n) ==> m'.At(n) == m.At(n)
    requires p.Down? ==> m'.At(p.n) == m.At(p.n).WithChild(p.d, m.RootOf(t)) && m'.root == m.root
    requires p.Top? ==> m'.root == m.RootOf(t)
    ensures m'.Focus(p, t)
  {
    if p.Down? {
      HoldsFrame(m, m', p.sib, p.n, p.n);
      PathFrame(m, m', p.up, p.n);
    }
  }

  // ------------------------------------------------------------ rotation

  /** The memory after the assignments of a rotation of t towards d, in the order they are made. */
  ghost function Rotated(m: Memory, p: Path, t: Tree, d: Side): Memory
    requires t.Fork? && t.Child(d.Other()).Fork?
  {
    var u := t.Child(d.Other());
    var b := u.Child(d);
    var m1 := m.Put(t.n, m.At(t.n).WithChild(d.Other(), m.RootOf(b)));
    var m2 := if b.Fork? then m1.Put(b.n, m1.At(b.n).(parent := t.n)) else m1;
    var m3 := m2.Put(u.n, m2.At(u.n).(parent := m2.At(t.n).parent));
    var m4 := Rehung(m3, p, u.n);
    var m5 := m4.Put(u.n, m4.At(u.n).WithChild(d, t.n));
    m5.Put(t.n, m5.At(t.n).(parent := u.n))
  }

  /** The same, cell by cell. */
  ghost predicate IsRotated(m: Memory, m': Memory, p: Path, t: Tree, u: Tree, d: Side)
    requires t.Fork? && u.Fork?
  {
    && m'.cells.Keys == m.cells.Keys && m'.sentinel == m.sentinel
    && m'.At(t.n) == m.At(t.n).WithChild(d.Other(), m.RootOf(u.Child(d))).(parent := u.n)
    && m'.At(u.n) == m.At(u.n).WithChild(d, t.n).(parent := m.At(t.n).parent)
    && (u.Child(d).Fork? ==> m'.At(u.Child(d).n) == m.At(u.Child(d).n).(parent := t.n))
    && (p.Down? ==> m'.At(p.n) == m.At(p.n).WithChild(p.d, u.n))
    && m'.root == (if p.Down? then m.root else u.n)
    && (forall n :: n in m.cells && n != t.n && n != u.n && n != m.RootOf(u.Child(d)) && (p.Down? ==> n != p.n)
          ==> m'.At(n) == m.At(n))
    && m'.At(m.sentinel) == m.At(m.sentinel)
  }

  lemma TurnFacts(m: Memory, p: Path, t: Tree, u: Tree, d: Side)
    requires m.Focus(p, t) && t.Fork? && u.Fork? && u == t.Child(d.Other())
    ensures m.cells.Keys >= {t.n, u.n} && t.n != u.n && u.n != m.sentinel
    ensures m.cells[t.n].Child(d.Other()) == u.n && m.cells[u.n].Child(d) == m.RootOf(u.Child(d))
    ensures u.Child(d).Fork? ==>
      && u.Child(d).n in m.cells && u.Child(d).n != m.sentinel
      && u.Child(d).n != t.n && u.Child(d).n != u.n && u.Child(d).n !in PathNodes(p)
    ensures t.n !in PathNodes(p) && u.n !in PathNodes(p)
  {
    assert m.Holds(u, t.n) && Distinct(u);
  }

  lemma RotatedCells(m: Memory, p: Path, t: Tree, u: Tree, d: Side)
    requires m.Focus(p, t) && t.Fork? && u.Fork? && u == t.Child(d.Other())
    ensures IsRotated(m, Rotated(m, p, t, d), p, t, u, d)
  {
    TurnFacts(m, p, t, u, d);
    HoleFacts(m, p, t);
  }

  /** The subtrees a, b and c of a rotation a (b c) to (a b) c are kept. */
  lemma RotatedKeeps(m: Memory, m': Memory, p: Path, t: Tree, u: Tree, d: Side)
    requires t.Fork? && u.Fork? && u == t.Child(d.Other()) && Distinct(t) && m.Holds(t, m.At(t.n).parent)
    requires m.sentinel !in Nodes(t) && Nodes(t) <= m.cells.Keys && (p.Down? ==> p.n !in Nodes(t))
    requires IsRotated(m, m', p, t, u, d)
    ensures m'.Holds(t.Child(d), t.n) && m'.Holds(u.Child(d), t.n) && m'.Holds(u.Child(d.Other()), u.n)
  {
    var a, b, c := t.Child(d), u.Child(d), u.Child(d.Other());
    assert m.Holds(u, t.n) && m.Holds(a, t.n) && m.Holds(b, u.n) && m.Holds(c, u.n);
    assert Distinct(u) && Distinct(b);
    HoldsFrame(m, m', a, t.n, t.n);
    HoldsFrame(m, m', b, u.n, t.n);
    HoldsFrame(m, m', c, u.n, u.n);
  }

  lemma RotatedHolds(m: Memory, m': Memory, p: Path, t: Tree, u: Tree, d: Side)
    requires m.Focus(p, t) && t.Fork? && u.Fork? && u == t.Child(d.Other())
    requires IsRotated(m, m', p, t, u, d)
    ensures m'.Holds(RotateTree(t, d), m.At(t.n).parent)
  {
    RotatedKeeps(m, m', p, t, u, d);
    assert m.Holds(u, t.n);
    assert m'.Holds(Join(d, t.Child(d), t.n, t.c, u.Child(d)), u.n);
  }

  lemma RotateFocus(m: Memory, p: Path, t: Tree, d: Side)
    requires m.Focus(p, t) && t.Fork? && t.Child(d.Other()).Fork?
    ensures Rotated(m, p, t, d).Focus(p, RotateTree(t, d))
    ensures SameStock(m, Rotated(m, p, t, d))
  {
    var m', u := Rotated(m, p, t, d), t.Child(d.Other());
    RotatedCells(m, p, t, u, d);
    RotatedHolds(m, m', p, t, u, d);
    RotateShape(t, d);
    TurnFacts(m, p, t, u, d);
    RehungFocus(m, m', p, t.n, RotateTree(t, d));
  }

  // ------------------------------------------------------------ moving the focus and painting

  lemma FocusUp(m: Memory, p: Path, t: Tree)
    requires m.Focus(p, t) && p.Down?
    ensures m.Focus(p.up, Join(p.d, t, p.n, p.c, p.sib))
  {
  }

  lemma FocusDown(m: Memory, p: Path, t: Tree, d: Side)
    requires m.Focus(p, t) && t.Fork?
    ensures m.Focus(Lower(p, t, d), t.Child(d))
  {
  }

  lemma PaintFocus(m: Memory, p: Path, t: Tree, c: Color)
    requires m.Focus(p, t) && t.Fork?
    ensures m.Put(t.n, m.At(t.n).(color := c)).Focus(p, t.(c := c))
    ensures SameStock(m, m.Put(t.n, m.At(t.n).(color := c)))
  {
    var m' := m.Put(t.n, m.At(t.n).(color := c));
    HoldsFrame(m, m', t.left, t.n, t.n);
    HoldsFrame(m, m', t.right, t.n, t.n);
    PathFrame(m, m', p, t.n);
  }

  lemma PaintUp(m: Memory, p: Path, t: Tree, c: Color)
    requires m.Focus(p, t) && p.Down?
    ensures m.Put(p.n, m.At(p.n).(color := c)).Focus(p.(c := c), t)
    ensures SameStock(m, m.Put(p.n, m.At(p.n).(color := c)))
  {
    var u := Join(p.d, t, p.n, p.c, p.sib);
    FocusUp(m, p, t);
    PaintFocus(m, p.up, u, c);
    FocusDown(m.Put(p.n, m.At(p.n).(color := c)), p.up, u.(c := c), p.d);
  }

  lemma PaintSib(m: Memory, p: Path, t: Tree, c: Color)
    requires m.Focus(p, t) && p.Down? && p.sib.Fork?
    ensures m.Put(p.sib.n, m.At(p.sib.n).(color := c)).Focus(p.(sib := p.sib.(c := c)), t)
    ensures SameStock(m, m.Put(p.sib.n, m.At(p.sib.n).(color := c)))
  {
    var m', v := m.Put(p.sib.n, m.At(p.sib.n).(color := c)), p.sib.(c := c);
    var q := Lower(p.up, Join(p.d, t, p.n, p.c, p.sib), p.d.Other());
    FocusUp(m, p, t);
    FocusDown(m, p.up, Join(p.d, t, p.n, p.c, p.sib), p.d.Other());
    PaintFocus(m, q, p.sib, c);
    FocusUp(m', q, v);
    FocusDown(m', p.up, Join(p.d, t, p.n, p.c, v), p.d);
  }

  lemma {:induction false} FocusWhole(m: Memory, p: Path, t: Tree)
    requires m.Focus(p, t)
    ensures m.Focus(Top, Plug(p, t))
  {
    if p.Down? {
      FocusUp(m, p, t);
      FocusWhole(m, p.up, Join(p.d, t, p.n, p.c, p.sib));
    }
  }

  /** Every node of the tree can be brought into focus. */
  lemma {:induction false} FocusOn(m: Memory, p: Path, t: Tree, n: Node) returns (q: Path, u: Tree)
    requires m.Focus(p, t) && n in Nodes(t)
    ensures m.Focus(q, u) && u.Fork? && u.n == n && Plug(q, u) == Plug(p, t)
    decreases t
  {
    if n == t.n {
      q, u := p, t;
    } else {
      var d := if n in Nodes(t.left) then L else R;
      FocusDown(m, p, t, d);
      q, u := FocusOn(m, Lower(p, t, d), t.Child(d), n);
    }
  }

  /** What happens to cells outside of the tree does not matter. */
  lemma FocusFrame(m: Memory, m': Memory, p: Path, t: Tree)
    requires m.Focus(p, t) && m'.sentinel == m.sentinel && m'.root == m.root && m.sentinel in m'.cells
    requires forall n :: n in PathNodes(p) || n in Nodes(t) ==> n in m'.cells && m'.At(n) == m.At(n)
    ensures m'.Focus(p, t)
  {
    PathFrame(m, m', p, m.RootOf(t));
    HoldsFrame(m, m', t, m.Above(p, t), m.Above(p, t));
  }

  lemma FocusWithout(m: Memory, p: Path, t: Tree, n: Node)
    requires m.Focus(p, t) && n !in PathNodes(p) && n !in Nodes(t) && n != m.sentinel
    ensures m.Without(n).Focus(p, t)
    ensures m.Without(n).At(m.RootOf(t)) == m.At(m.RootOf(t))
    ensures m.Without(n).At(m.sentinel) == m.At(m.sentinel)
  {
    FocusFrame(m, m.Without(n), p, t);
  }

  // ------------------------------------------------------------ a new leaf

  /** The memory after n is put in the empty hole of p, assignment by assignment. */
  ghost function Attached(m: Memory, p: Path, n: Node): Memory
    requires p.Down?
  {
    var m1 := m.Put(p.n, m.At(p.n).WithChild(p.d, n));
    var m2 := m1.Put(n, m1.At(n).(parent := p.n));
    var m3 := m2.Put(n, m2.At(n).(left := m.sentinel));
    var m4 := m3.Put(n, m3.At(n).(right := m.sentinel));
    m4.Put(n, m4.At(n).(color := Red))
  }

  lemma AttachFocus(m: Memory, p: Path, n: Node)
    requires m.Focus(p, Leaf) && p.Down? && n in m.cells && n !in PathNodes(p) && n != m.sentinel
    ensures Attached(m, p, n).Focus(p, Fork(Leaf, n, Red, Leaf))
    ensures SameStock(m, Attached(m, p, n))
  {
    var m', t := Attached(m, p, n), Fork(Leaf, n, Red, Leaf);
    assert m'.At(n) == Cell(m.sentinel, m.sentinel, p.n, Red);
    RehungFocus(m, m', p, m.sentinel, t);
  }

  // ------------------------------------------------------------ links

  ghost predicate LinksBack(m: Memory, t: Tree, n: Node, child: Node?) {
    child != null && child in Nodes(t) && child in m.cells && m.At(child).parent == n
  }

  lemma {:induction false} LinksOfTree(m: Memory, t: Tree, par: Node?, n: Node)
    requires m.Holds(t, par) && Distinct(t) && n in Nodes(t) && m.sentinel !in Nodes(t)
    ensures n in m.cells
    ensures forall d: Side :: m.At(n).Child(d) != null
    ensures forall d: Side :: m.At(n).Child(d) == m.sentinel || LinksBack(m, t, n, m.At(n).Child(d))
    ensures if n == t.n then m.At(n).parent == par else
      && m.At(n).parent != null && m.At(n).parent in Nodes(t) && m.At(n).parent in m.cells
      && (m.At(m.At(n).parent).left == n <==> m.At(m.At(n).parent).right != n)
  {
    assert m.At(t.n) == Cell(m.RootOf(t.left), m.RootOf(t.right), par, t.c);
    if n in Nodes(t.left) {
      LinksOfTree(m, t.left, t.n, n);
    } else if n in Nodes(t.right) {
      LinksOfTree(m, t.right, t.n, n);
    }
  }

  /** Whatever the parent link of the root and the links of the sentinel say, the tree is the same. */
  lemma FreeCells(m: Memory, m': Memory, t: Tree)
    requires m.Focus(Top, t) && m'.root == m.root && m'.sentinel == m.sentinel && m'.cells.Keys == m.cells.Keys
    requires forall n :: n in m.cells && n != m.root && n != m.sentinel ==> m'.At(n) == m.At(n)
    requires m.root != m.sentinel ==> m'.At(m.root) == m.At(m.root).(parent := m'.At(m.root).parent)
    ensures m'.Focus(Top, t)
  {
    HoleFacts(m, Top, t);
    HoldsFrame(m, m', t, m.Above(Top, t), m'.Above(Top, t));
  }
}
