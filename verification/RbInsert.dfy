/** What one turn of the insert fix-up loop does to the shape of the tree. */
module RbInsert {
  import opened RbNode
  import opened RbShape
  import opened RbMemory

  /** The keys of nodes at one moment. */
  type Keys = map<Node, Key>

  ghost predicate AllLeft(s: seq<Node>, ks: Keys, i: InsertPt, k: Key) {
    forall n :: n in s ==> n in ks && GoesLeft(i, k, ks[n])
  }

  ghost predicate NoneLeft(s: seq<Node>, ks: Keys, i: InsertPt, k: Key) {
    forall n :: n in s ==> n in ks && !GoesLeft(i, k, ks[n])
  }

  /** Some place in s parts the nodes k is not left of from those it is left of. */
  ghost predicate Parts(s: seq<Node>, ks: Keys, i: InsertPt, k: Key) {
    exists a :: 0 <= a <= |s| && NoneLeft(s[..a], ks, i, k) && AllLeft(s[a..], ks, i, k)
  }

  /** In a list in the plain order of keys there is a place for any key. */
  lemma {:induction false} PlainParts(s: seq<Node>, ks: Keys, k: Key)
    requires Ascending(s, ks)
    ensures Parts(s, ks, InsertValue, k)
  {
    var n := |s| - 1;
    if s == [] || ks[s[n]] <= k {
      assert s[..|s|] == s && s[|s|..] == [];
      assert NoneLeft(s[..|s|], ks, InsertValue, k) && AllLeft(s[|s|..], ks, InsertValue, k);
    } else {
      PlainParts(s[..n], ks, k);
      var a :| 0 <= a <= n && NoneLeft(s[..n][..a], ks, InsertValue, k) && AllLeft(s[..n][a..], ks, InsertValue, k);
      assert s[..n][..a] == s[..a] && s[a..] == s[..n][a..] + [s[n]];
      assert NoneLeft(s[..a], ks, InsertValue, k) && AllLeft(s[a..], ks, InsertValue, k);
    }
  }

  /** The nodes of s are in the plain order of their keys. */
  ghost predicate Ascending(s: seq<Node>, ks: Keys) {
    && (forall n :: n in s ==> n in ks)
    && forall i, j :: 0 <= i < j < |s| ==> ks[s[i]] <= ks[s[j]]
  }

  /** A node put where the plain descent leads is after every key not greater than its own, and the order is kept. */
  lemma PlainPlaced(a: seq<Node>, n: Node, b: seq<Node>, ks: Keys, k: Key)
    requires Ascending(a + b, ks) && n !in a + b
    requires Parts(a + b, ks, InsertValue, k) ==> NoneLeft(a, ks, InsertValue, k) && AllLeft(b, ks, InsertValue, k)
    ensures Ascending(a + [n] + b, ks[n := k])
    ensures (forall x :: x in a ==> ks[x] <= k) && (forall x :: x in b ==> k < ks[x])
  {
    PlainParts(a + b, ks, k);
    var q, r := a + b, a + [n] + b;
    forall i, j | 0 <= i < j < |r|
      ensures ks[n := k][r[i]] <= ks[n := k][r[j]]
    {
      if i < |a| {
        assert r[i] == q[i] && q[i] in a;
      } else if i > |a| {
        assert r[i] == q[i - 1] && q[i - 1] in q;
      }
      if j < |a| {
        assert r[j] == q[j] && q[j] in a;
      } else if j > |a| {
        assert r[j] == q[j - 1] && r[j] == b[j - |a| - 1] && r[j] in b;
      }
    }
  }

  lemma PartsAround(x: seq<Node>, n: Node, y: seq<Node>, ks: Keys, i: InsertPt, k: Key)
    requires Parts(x + [n] + y, ks, i, k)
    ensures n in ks
    ensures if GoesLeft(i, k, ks[n]) then AllLeft(y, ks, i, k) else NoneLeft(x, ks, i, k)
  {
    var s := x + [n] + y;
    var a :| 0 <= a <= |s| && NoneLeft(s[..a], ks, i, k) && AllLeft(s[a..], ks, i, k);
    if a <= |x| {
      assert s[a..] == x[a..] + [n] + y;
    } else {
      assert s[..a] == x + [n] + y[..a - |x| - 1];
    }
  }

  /** If there is such a place in w, the hole of p is at it or above it. */
  ghost predicate Leads(p: Path, w: Tree, ks: Keys, i: InsertPt, k: Key) {
    Parts(InOrder(w), ks, i, k) ==> NoneLeft(Before(p), ks, i, k) && AllLeft(After(p), ks, i, k)
  }

  lemma LowerLeads(p: Path, t: Tree, w: Tree, d: Side, ks: Keys, i: InsertPt, k: Key)
    requires t.Fork? && Plug(p, t) == w && Leads(p, w, ks, i, k)
    requires t.n in ks && d == if GoesLeft(i, k, ks[t.n]) then L else R
    ensures Leads(Lower(p, t, d), w, ks, i, k)
  {
    if Parts(InOrder(w), ks, i, k) {
      PlugInOrder(p, t);
      var x, y := Before(p) + InOrder(t.left), InOrder(t.right) + After(p);
      assert InOrder(w) == x + [t.n] + y by {
        Flatten(Before(p), InOrder(t.left), [t.n], InOrder(t.right), After(p));
      }
      PartsAround(x, t.n, y, ks, i, k);
    }
  }

  /** A red node whose only flaw may be that its parent is red too. */
  ghost predicate RedAt(p: Path, t: Tree, k: int) {
    t.Fork? && t.c.Red? && Balanced(t, k) && Fits(p, k)
  }

  ghost predicate ParentIsRed(p: Path) {
    p.Down? && p.c.Red? && p.up.Down?
  }

  /** Parent and uncle become black, the grandparent red. */
  ghost function Recolored(p: Path, t: Tree): Tree
    requires ParentIsRed(p) && p.up.sib.Fork?
  {
    Join(p.up.d, Join(p.d, t, p.n, Black, p.sib), p.up.n, Red, p.up.sib.(c := Black))
  }

  ghost function RecolorMemory(m: Memory, p: Path): Memory
    requires ParentIsRed(p) && p.up.sib.Fork?
  {
    var m1 := m.Put(p.n, m.At(p.n).(color := Black));
    var m2 := m1.Put(p.up.sib.n, m1.At(p.up.sib.n).(color := Black));
    m2.Put(p.up.n, m2.At(p.up.n).(color := Red))
  }

  lemma RecolorFocus(m: Memory, p: Path, t: Tree)
    requires m.Focus(p, t) && ParentIsRed(p) && p.up.sib.Fork?
    ensures RecolorMemory(m, p).Focus(p.up.up, Recolored(p, t))
    ensures SameStock(m, RecolorMemory(m, p))
  {
    PaintUp(m, p, t, Black);
    var m1, u := m.Put(p.n, m.At(p.n).(color := Black)), Join(p.d, t, p.n, Black, p.sib);
    FocusUp(m1, p.(c := Black), t);
    PaintSib(m1, p.up, u, Black);
    var m2, q := m1.Put(p.up.sib.n, m1.At(p.up.sib.n).(color := Black)), p.up.(sib := p.up.sib.(c := Black));
    PaintUp(m2, q, u, Red);
    FocusUp(RecolorMemory(m, p), q.(c := Red), u);
  }

  lemma RecolorBalanced(p: Path, t: Tree, k: int)
    requires RedAt(p, t, k) && ParentIsRed(p) && !IsBlack(p.up.sib)
    ensures RedAt(p.up.up, Recolored(p, t), k + 1)
    ensures SameNodes(p, t, p.up.up, Recolored(p, t))
  {
    assert Fits(p.up, k);
    assert Balanced(Join(p.d, t, p.n, Black, p.sib), k + 1);
    SameBelow(p.up.up, Join(p.up.d, Join(p.d, t, p.n, p.c, p.sib), p.up.n, p.up.c, p.up.sib), Recolored(p, t));
  }

  /** An inner child: rotating its parent makes the parent an outer child. */
  ghost function InnerPath(p: Path, t: Tree): Path
    requires ParentIsRed(p) && t.Fork?
  {
    Down(p.up, p.d.Other(), t.n, t.c, t.Child(p.d))
  }

  ghost function InnerTree(p: Path, t: Tree): Tree
    requires ParentIsRed(p) && t.Fork?
  {
    Join(p.d.Other(), p.sib, p.n, p.c, t.Child(p.d.Other()))
  }

  lemma InnerTurn(p: Path, t: Tree)
    requires ParentIsRed(p) && t.Fork?
    ensures RotateTree(Join(p.d, t, p.n, p.c, p.sib), p.d.Other())
         == Join(p.d.Other(), InnerTree(p, t), t.n, t.c, t.Child(p.d))
  {
  }

  lemma InnerBalanced(p: Path, t: Tree, k: int)
    requires RedAt(p, t, k) && ParentIsRed(p)
    ensures RedAt(InnerPath(p, t), InnerTree(p, t), k) && ParentIsRed(InnerPath(p, t))
    ensures SameNodes(p, t, InnerPath(p, t), InnerTree(p, t))
  {
    var u := Join(p.d, t, p.n, p.c, p.sib);
    RotateShape(u, p.d.Other());
    SameBelow(p.up, u, RotateTree(u, p.d.Other()));
  }

  /** An outer child: the grandparent goes down to become its red sibling. */
  ghost function OuterPath(p: Path): Path
    requires ParentIsRed(p)
  {
    Down(p.up.up, p.up.d, p.n, Black, Join(p.up.d.Other(), p.up.sib, p.up.n, Red, p.sib))
  }

  /** The grandparent's tree once it is red and the parent black. */
  ghost function OuterTree(p: Path, t: Tree): Tree
    requires ParentIsRed(p)
  {
    Join(p.up.d, Join(p.d, t, p.n, Black, p.sib), p.up.n, Red, p.up.sib)
  }

  lemma OuterTurn(p: Path, t: Tree)
    requires ParentIsRed(p) && p.d == p.up.d
    ensures RotateTree(OuterTree(p, t), p.d.Other()) == Join(p.d, t, p.n, Black, OuterPath(p).sib)
  {
  }

  ghost function OuterMemory(m: Memory, p: Path): Memory
    requires ParentIsRed(p)
  {
    var m1 := m.Put(p.n, m.At(p.n).(color := Black));
    m1.Put(p.up.n, m1.At(p.up.n).(color := Red))
  }

  lemma OuterFocus(m: Memory, p: Path, t: Tree)
    requires m.Focus(p, t) && ParentIsRed(p)
    ensures OuterMemory(m, p).Focus(p.up.up, OuterTree(p, t))
    ensures SameStock(m, OuterMemory(m, p))
  {
    PaintUp(m, p, t, Black);
    var m1, u := m.Put(p.n, m.At(p.n).(color := Black)), Join(p.d, t, p.n, Black, p.sib);
    FocusUp(m1, p.(c := Black), t);
    PaintUp(m1, p.up, u, Red);
    FocusUp(OuterMemory(m, p), p.up.(c := Red), u);
  }

  lemma OuterBalanced(p: Path, t: Tree, k: int)
    requires RedAt(p, t, k) && ParentIsRed(p) && IsBlack(p.up.sib) && p.d == p.up.d
    ensures RedAt(OuterPath(p), t, k) && Depth(OuterPath(p)) < Depth(p)
    ensures SameNodes(p, t, OuterPath(p), t)
  {
    var u := OuterTree(p, t);
    assert Fits(p.up, k);
    RotateShape(u, p.d.Other());
    SameBelow(p.up.up, u, RotateTree(u, p.d.Other()));
    SameBelow(p.up.up, u, Join(p.d, Join(p.d, t, p.n, p.c, p.sib), p.up.n, p.up.c, p.up.sib));
  }

  /** When the loop stops, painting the root black leaves a red-black tree. */
  lemma InsertDone(p: Path, t: Tree, k: int) returns (w: Tree)
    requires RedAt(p, t, k) && (p.Down? ==> p.c.Black?)
    ensures Plug(p, t).Fork? && w == Plug(p, t).(c := Black) && RedBlack(w)
    ensures InOrder(w) == InOrder(Plug(p, t)) && Nodes(w) == PathNodes(p) + Nodes(t)
  {
    PlugFork(p, t);
    PlugNodes(p, t);
    w := Plug(p, t).(c := Black);
    if p.Top? {
      assert Balanced(w, k + 1);
    } else {
      PlugBalanced(p, t, k);
      assert w == Plug(p, t);
    }
  }

  /** The new red leaf upsets nothing but the colour of its parent. */
  lemma NewLeaf(p: Path, n: Node, t: Tree)
    requires Plug(p, Leaf) == t && RedBlack(t)
    ensures RedAt(p, Fork(Leaf, n, Red, Leaf), 0)
    ensures InOrder(t) == Before(p) + After(p)
    ensures InOrder(Plug(p, Fork(Leaf, n, Red, Leaf))) == Before(p) + [n] + After(p)
    ensures PathNodes(p) + Nodes(Fork(Leaf, n, Red, Leaf)) == Nodes(t) + {n}
  {
    var k := UnplugBalanced(p, Leaf);
    PlugInOrder(p, Leaf);
    PlugInOrder(p, Fork(Leaf, n, Red, Leaf));
    PlugNodes(p, Leaf);
  }

  lemma {:induction false} PlugFork(p: Path, t: Tree)
    requires t.Fork?
    ensures Plug(p, t).Fork?
  {
    if p.Down? {
      PlugFork(p.up, Join(p.d, t, p.n, p.c, p.sib));
    }
  }
}
