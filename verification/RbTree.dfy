/**
 rbtree.c and rbtree.h: the tree itself. The methods write the fields of the nodes; the ghost memory
 mirrors them, and tree is the shape it spells out. A branch of the source that comes in two mirrored
 copies is one method with a side. Line numbers are those of rbtree.c.
 */
module RbTree {
  import opened RbNode
  import opened RbShape
  import opened RbMemory
  import opened RbInsert
  import opened RbShort
  import opened RbSplice
  import opened RbHeight

  /** What rbtree_delete leaves in the node it took out. */
  ghost predicate Cleared(n: Node)
    reads n
  {
    n.left == n.right == n.parent == null && n.key == 0
  }

  class RbTree {
    var root: Node
    const sentinel: Node
    const insert: InsertPt

    ghost var mem: Memory
    ghost var tree: Tree

    constructor (s: Node, i: InsertPt)
      modifies s`color
      ensures Valid() && tree == Leaf && sentinel == s && insert == i
    {
      root, sentinel, insert := s, s, i;
      tree := Leaf;
      mem := Memory(map[s := Cell(s.left, s.right, s.parent, Black)], s, s);
      new;
      s.color := Black;
      assert Balanced(Leaf, 0);
    }

    ghost predicate Mirrors()
      reads this`root, this`mem, mem.cells.Keys
    {
      && mem.root == root && mem.sentinel == sentinel
      && forall n :: n in mem.cells ==> mem.cells[n] == Cell(n.left, n.right, n.parent, n.color)
    }

    /** The tree in memory is a red-black tree, and tree is its shape. */
    ghost predicate Valid()
      reads this, mem.cells.Keys
    {
      && Mirrors() && mem.Focus(Top, tree) && mem.cells.Keys == Nodes(tree) + {sentinel}
      && RedBlack(tree) && mem.At(sentinel).color.Black?
    }

    ghost function KeyMap(): Keys
      reads this, Nodes(tree)
    {
      map n | n in Nodes(tree) :: n.key
    }

    method SetLeft(n: Node, x: Node?)
      requires Mirrors() && n in mem.cells
      modifies this`mem, n`left
      ensures Mirrors() && mem == old(mem).Put(n, old(mem).At(n).(left := x))
    {
      n.left := x;
      mem := mem.Put(n, mem.At(n).(left := x));
    }

    method SetRight(n: Node, x: Node?)
      requires Mirrors() && n in mem.cells
      modifies this`mem, n`right
      ensures Mirrors() && mem == old(mem).Put(n, old(mem).At(n).(right := x))
    {
      n.right := x;
      mem := mem.Put(n, mem.At(n).(right := x));
    }

    method SetParent(n: Node, x: Node?)
      requires Mirrors() && n in mem.cells
      modifies this`mem, n`parent
      ensures Mirrors() && mem == old(mem).Put(n, old(mem).At(n).(parent := x))
    {
      n.parent := x;
      mem := mem.Put(n, mem.At(n).(parent := x));
    }

    method SetColor(n: Node, c: Color)
      requires Mirrors() && n in mem.cells
      modifies this`mem, n`color
      ensures Mirrors() && mem == old(mem).Put(n, old(mem).At(n).(color := c))
    {
      n.color := c;
      mem := mem.Put(n, mem.At(n).(color := c));
    }

    method SetRoot(n: Node)
      requires Mirrors()
      modifies this`mem, this`root
      ensures Mirrors() && mem == old(mem).(root := n)
    {
      root := n;
      mem := mem.(root := n);
    }

    ghost function Inner(): set<Node>
      reads this`mem
    {
      mem.cells.Keys - {sentinel}
    }

    method ReplaceChild(node: Node, temp: Node, ghost p: Path)
      requires Mirrors() && (p.Top? <==> node == root)
      requires p.Down? ==> mem.At(p.n).Child(p.d) == node && mem.At(p.n).Child(p.d.Other()) != node
      requires p.Down? ==> p.n in mem.cells && p.n != sentinel && node in mem.cells && mem.At(node).parent == p.n
      modifies this`root, this`mem, Inner()`left, Inner()`right
      ensures Mirrors() && mem == Rehung(old(mem), p, temp)
    {
      if node == root {
        SetRoot(temp);
      } else if node == node.parent.left {
        SetLeft(node.parent, temp);
      } else {
        SetRight(node.parent, temp);
      }
    }

    method LeftRotate(node: Node, ghost p: Path, ghost t: Tree)
      requires Mirrors() && mem.Focus(p, t) && t.Fork? && node == t.n && t.right.Fork?
      modifies this`root, this`mem, Inner()`left, Inner()`right, Inner()`parent
      ensures Mirrors() && mem.Focus(p, RotateTree(t, L)) && SameStock(old(mem), mem)
    {
      RotateFocus(mem, p, t, L);
      HoleFacts(mem, p, t);
      TurnFacts(mem, p, t, t.right, L);
      var temp := node.right;
      assert temp == t.right.n;
      SetRight(node, temp.left);
      if temp.left != sentinel {
        SetParent(temp.left, node);
      }
      SetParent(temp, node.parent);
      ReplaceChild(node, temp, p);
      SetLeft(temp, node);
      SetParent(node, temp);
      assert mem == Rotated(old(mem), p, t, L);
    }

    method RightRotate(node: Node, ghost p: Path, ghost t: Tree)
      requires Mirrors() && mem.Focus(p, t) && t.Fork? && node == t.n && t.left.Fork?
      modifies this`root, this`mem, Inner()`left, Inner()`right, Inner()`parent
      ensures Mirrors() && mem.Focus(p, RotateTree(t, R)) && SameStock(old(mem), mem)
    {
      RotateFocus(mem, p, t, R);
      HoleFacts(mem, p, t);
      TurnFacts(mem, p, t, t.left, R);
      var temp := node.left;
      assert temp == t.left.n;
      SetLeft(node, temp.right);
      if temp.right != sentinel {
        SetParent(temp.right, node);
      }
      SetParent(temp, node.parent);
      ReplaceChild(node, temp, p);
      SetRight(temp, node);
      SetParent(node, temp);
      assert mem == Rotated(old(mem), p, t, R);
    }

    method Rotate(node: Node, d: Side, ghost p: Path, ghost t: Tree)
      requires Mirrors() && mem.Focus(p, t) && t.Fork? && node == t.n && t.Child(d.Other()).Fork?
      modifies this`root, this`mem, Inner()`left, Inner()`right, Inner()`parent
      ensures Mirrors() && mem.Focus(p, RotateTree(t, d)) && SameStock(old(mem), mem)
    {
      if d.L? {
        LeftRotate(node, p, t);
      } else {
        RightRotate(node, p, t);
      }
    }

    // ------------------------------------------------------------ insert

    method Descend(top: Node, node: Node, ghost t: Tree, ghost ks: Keys)
      returns (temp: Node, d: Side, ghost p: Path, ghost steps: nat)
      requires Mirrors() && mem.Focus(Top, t) && t.Fork? && t.n == top
      requires forall n :: n in Nodes(t) ==> n in ks && n.key == ks[n]
      ensures mem.Focus(p, Leaf) && p.Down? && p.n == temp && p.d == d
      ensures Plug(p, Leaf) == t && PathNodes(p) == Nodes(t)
      ensures Leads(p, t, ks, insert, node.key)
      ensures (if d.L? then temp.left else temp.right) == sentinel && temp in mem.cells
      ensures steps <= Height(t)
    {
      temp, steps := top, 0;
      ghost var q, u := Top, t;
      while true
        invariant mem.Focus(q, u) && u.Fork? && u.n == temp && Plug(q, u) == t
        invariant Leads(q, t, ks, insert, node.key)
        invariant steps == Depth(q)
        decreases u
      {
        steps := steps + 1;
        PlugNodes(q, u);
        d := if GoesLeft(insert, node.key, temp.key) then L else R;
        LowerLeads(q, u, t, d, ks, insert, node.key);
        var next := if d.L? then temp.left else temp.right;
        FocusDown(mem, q, u, d);
        assert next == mem.RootOf(u.Child(d));
        if next == sentinel {
          p := Lower(q, u, d);
          PlugNodes(p, Leaf);
          DepthBound(p, Leaf);
          break;
        }
        temp, q, u := next, Lower(q, u, d), u.Child(d);
      }
    }

    method Hang(temp: Node, node: Node, d: Side, ghost p: Path)
      requires Mirrors() && {temp, node} <= mem.cells.Keys && p.Down? && p.n == temp && p.d == d
      modifies this`mem, temp`left, temp`right, node`left, node`right, node`parent, node`color
      ensures Mirrors() && mem == Attached(old(mem), p, node)
    {
      if d.L? {
        SetLeft(temp, node);
      } else {
        SetRight(temp, node);
      }
      SetParent(node, temp);
      SetLeft(node, sentinel);
      SetRight(node, sentinel);
      SetColor(node, Red);
    }

    method Attach(top: Node, node: Node, ghost t: Tree, ghost ks: Keys) returns (ghost p: Path)
      requires Mirrors() && mem.Focus(Top, t) && t.Fork? && t.n == top
      requires node in mem.cells && node !in Nodes(t) && node != sentinel
      requires forall n :: n in Nodes(t) ==> n in ks && n.key == ks[n]
      modifies this`mem, Inner()`left, Inner()`right, node`parent, node`color
      ensures Mirrors() && SameStock(old(mem), mem)
      ensures p.Down? && mem.Focus(p, Fork(Leaf, node, Red, Leaf)) && Plug(p, Leaf) == t
      ensures Leads(p, t, ks, insert, node.key)
    {
      hide Nodes;
      var temp, d;
      ghost var steps;
      temp, d, p, steps := Descend(top, node, t, ks);
      AttachFocus(mem, p, node);
      Hang(temp, node, d, p);
    }

    /** The uncle is red (lines 86-90 and 106-110). */
    method RecolorUncle(node: Node, temp: Node, ghost p: Path, ghost t: Tree) returns (next: Node)
      requires Mirrors() && mem.Focus(p, t) && t.Fork? && t.n == node && ParentIsRed(p)
      requires p.up.sib.Fork? && p.up.sib.n == temp
      modifies this`mem, Inner()`color
      ensures Mirrors() && SameStock(old(mem), mem)
      ensures mem.Focus(p.up.up, Recolored(p, t)) && next == Recolored(p, t).n
    {
      FamilyFacts(mem, p, t);
      RecolorFocus(mem, p, t);
      SetColor(node.parent, Black);
      SetColor(temp, Black);
      SetColor(node.parent.parent, Red);
      next := node.parent.parent;
      assert mem == RecolorMemory(old(mem), p);
    }

    /** The node is an inner grandchild (lines 93-96 and 113-116). */
    method TurnParent(node: Node, d: Side, ghost p: Path, ghost t: Tree) returns (next: Node)
      requires Mirrors() && mem.Focus(p, t) && t.Fork? && t.n == node && ParentIsRed(p) && p.d == d.Other()
      modifies this`root, this`mem, Inner()`left, Inner()`right, Inner()`parent
      ensures Mirrors() && SameStock(old(mem), mem)
      ensures mem.Focus(InnerPath(p, t), InnerTree(p, t)) && next == InnerTree(p, t).n
    {
      FamilyFacts(mem, p, t);
      FocusUp(mem, p, t);
      next := node.parent;
      InnerTurn(p, t);
      Rotate(next, d, p.up, Join(p.d, t, p.n, p.c, p.sib));
      FocusDown(mem, p.up, Join(p.d.Other(), InnerTree(p, t), t.n, t.c, t.Child(p.d)), p.d.Other());
    }

    /** The node is an outer grandchild (lines 98-100 and 118-120). */
    method TurnGrandparent(node: Node, d: Side, ghost p: Path, ghost t: Tree)
      requires Mirrors() && mem.Focus(p, t) && t.Fork? && t.n == node && ParentIsRed(p) && p.d == p.up.d == d
      modifies this`root, this`mem, Inner()`left, Inner()`right, Inner()`parent, Inner()`color
      ensures Mirrors() && SameStock(old(mem), mem)
      ensures mem.Focus(OuterPath(p), t)
    {
      FamilyFacts(mem, p, t);
      OuterFocus(mem, p, t);
      SetColor(node.parent, Black);
      SetColor(node.parent.parent, Red);
      assert mem == OuterMemory(old(mem), p);
      OuterTurn(p, t);
      Rotate(node.parent.parent, d.Other(), p.up.up, OuterTree(p, t));
      FocusDown(mem, p.up.up, Join(p.d, t, p.n, Black, OuterPath(p).sib), p.d);
    }

    /** One turn of the loop (lines 83-122), d being the side of the grandparent its parent is on. */
    method InsertStep(node: Node, ghost p: Path, ghost t: Tree, ghost k: int)
      returns (next: Node, ghost q: Path, ghost u: Tree, ghost j: int)
      requires Mirrors() && mem.Focus(p, t) && RedAt(p, t, k) && t.n == node && ParentIsRed(p)
      requires mem.At(sentinel).color.Black?
      modifies this`root, this`mem, Inner()`left, Inner()`right, Inner()`parent, Inner()`color
      ensures Mirrors() && SameStock(old(mem), mem)
      ensures mem.Focus(q, u) && RedAt(q, u, j) && u.n == next
      ensures SameNodes(p, t, q, u) && Depth(q) < Depth(p)
    {
      FamilyFacts(mem, p, t);
      var d := if node.parent == node.parent.parent.left then L else R;
      var temp := if d.L? then node.parent.parent.right else node.parent.parent.left;
      if temp.color.Red? {
        RecolorBalanced(p, t, k);
        q, u, j := p.up.up, Recolored(p, t), k + 1;
        next := RecolorUncle(node, temp, p, t);
      } else {
        next, q, u := TurnUp(node, d, p, t, k);
        j := k;
      }
    }

    /** Lines 92-101 and 112-121: the uncle is black, and the grandparent is turned away from it. */
    method TurnUp(node: Node, d: Side, ghost p: Path, ghost t: Tree, ghost k: int)
      returns (next: Node, ghost q: Path, ghost u: Tree)
      requires Mirrors() && mem.Focus(p, t) && RedAt(p, t, k) && t.n == node && ParentIsRed(p)
      requires d == p.up.d && IsBlack(p.up.sib)
      modifies this`root, this`mem, Inner()`left, Inner()`right, Inner()`parent, Inner()`color
      ensures Mirrors() && SameStock(old(mem), mem)
      ensures mem.Focus(q, u) && RedAt(q, u, k) && u.n == next
      ensures SameNodes(p, t, q, u) && Depth(q) < Depth(p)
    {
      next, q, u := node, p, t;
      if node == (if d.L? then node.parent.right else node.parent.left) {
        InnerBalanced(p, t, k);
        q, u := InnerPath(p, t), InnerTree(p, t);
        next := TurnParent(node, d, p, t);
      }
      OuterBalanced(q, u, k);
      TurnGrandparent(next, d, q, u);
      q := OuterPath(q);
    }

    /** The loop (lines 82-123). */
    method InsertLoop(n: Node, ghost p0: Path, ghost t0: Tree, ghost k0: int)
      returns (ghost p: Path, ghost t: Tree, ghost k: int)
      requires Mirrors() && mem.Focus(p0, t0) && RedAt(p0, t0, k0) && t0.n == n
      requires mem.At(sentinel).color.Black?
      modifies this`root, this`mem, Inner()`left, Inner()`right, Inner()`parent, Inner()`color
      ensures Mirrors() && SameStock(old(mem), mem)
      ensures mem.Focus(p, t) && RedAt(p, t, k) && (p.Down? ==> p.c.Black?)
      ensures SameNodes(p0, t0, p, t)
    {
      var node := n;
      p, t, k := p0, t0, k0;
      HoleFacts(mem, p, t);
      while node != root && node.parent.color.Red?
        invariant Mirrors() && SameStock(old(mem), mem)
        invariant mem.Focus(p, t) && RedAt(p, t, k) && t.n == node
        invariant SameNodes(p0, t0, p, t)
        invariant node in mem.cells && (node == root <==> p.Top?)
        invariant p.Down? ==> p.n in mem.cells && node.parent == p.n && p.n.color == p.c
        decreases Depth(p)
      {
        node, p, t, k := InsertStep(node, p, t, k);
        HoleFacts(mem, p, t);
      }
    }

    /** Balancing after a red leaf was attached (lines 82-125). */
    method InsertFixup(n: Node, ghost p0: Path, ghost t0: Tree, ghost k0: int) returns (ghost w: Tree)
      requires Mirrors() && mem.Focus(p0, t0) && RedAt(p0, t0, k0) && t0.n == n
      requires mem.At(sentinel).color.Black?
      modifies this`root, this`mem, Inner()`left, Inner()`right, Inner()`parent, Inner()`color
      ensures Mirrors() && SameStock(old(mem), mem) && mem.Focus(Top, w) && RedBlack(w)
      ensures InOrder(w) == InOrder(Plug(p0, t0)) && Nodes(w) == PathNodes(p0) + Nodes(t0)
    {
      ghost var p, t, k := InsertLoop(n, p0, t0, k0);
      w := InsertDone(p, t, k);
      FocusWhole(mem, p, t);
      HoleFacts(mem, Top, Plug(p, t));
      PaintFocus(mem, Top, Plug(p, t), Black);
      SetColor(root, Black);
    }

    /** The tree was empty (lines 70-77). */
    method InsertFirst(node: Node) returns (ghost w: Tree)
      requires Mirrors() && mem.Focus(Top, Leaf) && node in mem.cells && node != sentinel
      modifies this`root, this`mem, node`left, node`right, node`parent, node`color
      ensures Mirrors() && SameStock(old(mem), mem)
      ensures w == Fork(Leaf, node, Black, Leaf) && mem.Focus(Top, w) && RedBlack(w)
    {
      SetParent(node, null);
      SetLeft(node, sentinel);
      SetRight(node, sentinel);
      SetColor(node, Black);
      SetRoot(node);
      w := Fork(Leaf, node, Black, Leaf);
      assert Balanced(w, 1);
    }

    /** The tree was not empty (lines 79-125). */
    method InsertBelow(node: Node, ghost t: Tree, ghost ks: Keys)
      returns (ghost w: Tree, ghost a: seq<Node>, ghost b: seq<Node>)
      requires Mirrors() && mem.Focus(Top, t) && t.Fork? && RedBlack(t) && mem.At(sentinel).color.Black?
      requires node in mem.cells && node !in Nodes(t) && node != sentinel
      requires forall n :: n in Nodes(t) ==> n in ks && n.key == ks[n]
      modifies this`root, this`mem, Inner()`left, Inner()`right, Inner()`parent, Inner()`color
      ensures Mirrors() && SameStock(old(mem), mem)
      ensures mem.Focus(Top, w) && RedBlack(w) && Nodes(w) == Nodes(t) + {node}
      ensures InOrder(t) == a + b && InOrder(w) == a + [node] + b
      ensures Parts(a + b, ks, insert, node.key) ==>
        NoneLeft(a, ks, insert, node.key) && AllLeft(b, ks, insert, node.key)
    {
      hide Memory.Focus;
      hide RedBlack;
      hide RedAt;
      hide Nodes;
      hide PathNodes;
      HoleFacts(mem, Top, t);
      ghost var p := Attach(root, node, t, ks);
      a, b := Before(p), After(p);
      NewLeaf(p, node, t);
      w := InsertFixup(node, p, Fork(Leaf, node, Red, Leaf), 0);
    }

    /** The operation is over: w is the new shape. */
    ghost method Settle(w: Tree)
      requires Mirrors() && mem.Focus(Top, w) && mem.cells.Keys == Nodes(w) + {sentinel}
      requires RedBlack(w) && mem.At(sentinel).color.Black?
      modifies this`tree
      ensures Valid() && tree == w
    {
      tree := w;
    }

    /** The ghost memory takes note of a node that is not in the tree. */
    ghost method Adopt(node: Node)
      requires Valid() && node !in Nodes(tree) && node != sentinel
      modifies this`mem
      ensures Mirrors() && mem.Focus(Top, tree) && mem.cells.Keys == Nodes(tree) + {sentinel, node}
      ensures mem.At(sentinel).color.Black? && root == mem.RootOf(tree)
    {
      ghost var m0 := mem;
      mem := mem.Put(node, Cell(node.left, node.right, node.parent, node.color));
      FocusFrame(m0, mem, Top, tree);
      HoleFacts(mem, Top, tree);
    }

    /** Lines 70-125. */
    method Enter(node: Node, ghost t: Tree, ghost ks: Keys)
      returns (ghost w: Tree, ghost a: seq<Node>, ghost b: seq<Node>)
      requires Mirrors() && mem.Focus(Top, t) && root == mem.RootOf(t) && RedBlack(t) && mem.At(sentinel).color.Black?
      requires node in mem.cells && node !in Nodes(t) && node != sentinel && sentinel !in Nodes(t)
      requires forall n :: n in Nodes(t) ==> n in ks && n.key == ks[n]
      modifies this`root, this`mem, Inner()`left, Inner()`right, Inner()`parent, Inner()`color
      ensures Mirrors() && SameStock(old(mem), mem)
      ensures mem.Focus(Top, w) && RedBlack(w) && Nodes(w) == Nodes(t) + {node}
      ensures InOrder(t) == a + b && InOrder(w) == a + [node] + b
      ensures Parts(a + b, ks, insert, node.key) ==>
        NoneLeft(a, ks, insert, node.key) && AllLeft(b, ks, insert, node.key)
    {
      if root == sentinel {
        a, b := [], [];
        w := InsertFirst(node);
      } else {
        w, a, b := InsertBelow(node, t, ks);
      }
    }

    method Place(node: Node) returns (ghost a: seq<Node>, ghost b: seq<Node>)
      requires Valid() && node !in Nodes(tree) && node != sentinel
      modifies this`root, this`mem, this`tree
      modifies (Nodes(tree) + {node})`left, (Nodes(tree) + {node})`right
      modifies (Nodes(tree) + {node})`parent, (Nodes(tree) + {node})`color
      ensures Valid() && Nodes(tree) == old(Nodes(tree)) + {node} && mem.cells.Keys == Nodes(tree) + {sentinel}
      ensures old(InOrder(tree)) == a + b && InOrder(tree) == a + [node] + b
      ensures Parts(a + b, old(KeyMap()), insert, node.key) ==>
        NoneLeft(a, old(KeyMap()), insert, node.key) && AllLeft(b, old(KeyMap()), insert, node.key)
    {
      ghost var ks, w := KeyMap(), tree;
      Adopt(node);
      w, a, b := Enter(node, tree, ks);
      Settle(w);
    }

    lemma AllCells()
      requires Valid()
      ensures mem.cells.Keys == Nodes(tree) + {sentinel}
    {
    }

    /** rbtree_insert: node ends up after the nodes a and before the nodes b. With rbtree_insert_value a tree in the
        order of keys is so again, and the nodes a are those whose keys are not greater. */
    method Insert(node: Node) returns (ghost a: seq<Node>, ghost b: seq<Node>)
      requires Valid() && node !in Nodes(tree) && node != sentinel
      modifies this`root, this`mem, this`tree
      modifies (Nodes(tree) + {node})`left, (Nodes(tree) + {node})`right
      modifies (Nodes(tree) + {node})`parent, (Nodes(tree) + {node})`color
      ensures Valid() && Nodes(tree) == old(Nodes(tree)) + {node} && mem.cells.Keys == Nodes(tree) + {sentinel}
      ensures old(InOrder(tree)) == a + b && InOrder(tree) == a + [node] + b
      ensures Parts(a + b, old(KeyMap()), insert, node.key) ==>
        NoneLeft(a, old(KeyMap()), insert, node.key) && AllLeft(b, old(KeyMap()), insert, node.key)
      ensures insert.InsertValue? && Ascending(a + b, old(KeyMap())) ==> Ascending(a + [node] + b, KeyMap())
      ensures insert.InsertValue? && Ascending(a + b, old(KeyMap())) ==>
        (forall x :: x in a ==> x.key <= node.key) && (forall x :: x in b ==> node.key < x.key)
    {
      hide Valid;
      hide Nodes;
      hide InOrder;
      ghost var ks, was := KeyMap(), mem.cells.Keys;
      InOrderNodes(tree);
      AllCells();
      a, b := Place(node);
      assert forall n :: n in was ==> n.key == old(n.key);
      assert KeyMap().Keys == ks.Keys + {node};
      assert KeyMap() == ks[node := node.key];
      if insert.InsertValue? && Ascending(a + b, ks) {
        PlainPlaced(a, node, b, ks, node.key);
      }
    }

    // ------------------------------------------------------------ delete

    /** temp is what sits in the hole of p, and even the sentinel links up to the hole's parent. */
    ghost predicate Gap(p: Path, t: Tree, temp: Node)
      reads this`root, this`mem, mem.cells.Keys
    {
      && Mirrors() && mem.Focus(p, t) && temp == mem.RootOf(t)
      && (p.Down? ==> mem.At(temp).parent == p.n)
    }

    /** The leftmost node below node (rbtree_min). */
    method Min(node: Node, ghost p: Path, ghost t: Tree) returns (min: Node, ghost steps: nat)
      requires Mirrors() && mem.Focus(p, t) && t.Fork? && t.n == node
      ensures min == MinTree(t).n && steps < Height(t)
    {
      min, steps := node, 0;
      ghost var q, u := p, t;
      HoleFacts(mem, q, u);
      while min.left != sentinel
        invariant mem.Focus(q, u) && u.Fork? && u.n == min && min in mem.cells
        invariant MinTree(u) == MinTree(t) && steps + Height(u) <= Height(t)
        decreases u
      {
        steps := steps + 1;
        FocusDown(mem, q, u, L);
        q, u := Lower(q, u, L), u.left;
        min := min.left;
        HoleFacts(mem, q, u);
      }
    }

    /** Lines 175-180: subst's parent points to temp instead. */
    method Bypass(subst: Node, temp: Node, ghost p: Path)
      requires Mirrors() && subst in mem.cells && p.Down? && p.n in mem.cells && subst.parent == p.n
      requires mem.At(p.n).Child(p.d) == subst && mem.At(p.n).Child(p.d.Other()) != subst
      modifies this`mem, p.n`left, p.n`right
      ensures Mirrors() && mem == old(mem).Put(p.n, old(mem).At(p.n).WithChild(p.d, temp))
    {
      if subst == subst.parent.left {
        SetLeft(subst.parent, temp);
      } else {
        SetRight(subst.parent, temp);
      }
    }

    /** Lines 175-183 when the node itself goes and is not the root. */
    method TakeOut(node: Node, temp: Node, ghost p: Path, ghost t: Tree, ghost u: Tree)
      requires Mirrors() && mem.Focus(p, t) && p.Down? && OnlyChild(t, u) && t.n == node && temp == mem.RootOf(u)
      modifies this`mem, Inner()`left, Inner()`right, Inner()`parent, sentinel`parent
      ensures Mirrors() && mem == Bypassed(old(mem), p, u)
    {
      HoleFacts(mem, p, t);
      Bypass(node, temp, p);
      SetParent(temp, node.parent);
    }

    /** Lines 175-192 when the successor subst is to take the place of the node. */
    method Detach(node: Node, subst: Node, temp: Node, ghost p: Path, ghost t: Tree)
      requires Mirrors() && mem.Focus(p, t) && t.Fork? && t.left.Fork? && t.right.Fork? && t.n == node
      requires subst == MinTree(t.right).n && temp == mem.RootOf(MinTree(t.right).right)
      modifies this`mem, sentinel`parent, Inner()`left, Inner()`right, Inner()`parent
      ensures Mirrors() && mem == Detached(old(mem), t)
    {
      ghost var q := MinPath(Lower(p, t, R), t.right);
      FocusDown(mem, p, t, R);
      MinFocus(mem, Lower(p, t, R), t.right);
      HoleFacts(mem, q, MinTree(t.right));
      MinPathTop(Lower(p, t, R), t.right);
      SpliceNames(mem, p, t);
      Bypass(subst, temp, q);
      if subst.parent == node {
        SetParent(temp, subst);
      } else {
        SetParent(temp, subst.parent);
      }
    }

    /** Lines 194-197. */
    method TakePlace(subst: Node, node: Node)
      requires Mirrors() && {subst, node} <= mem.cells.Keys && subst != node
      modifies this`mem, subst`left, subst`right, subst`parent, subst`color
      ensures Mirrors() && mem == Placed(old(mem), subst, node)
    {
      SetLeft(subst, node.left);
      SetRight(subst, node.right);
      SetParent(subst, node.parent);
      SetColor(subst, node.color);
    }

    /** Lines 199-216. */
    method Welcome(node: Node, subst: Node, ghost p: Path, ghost l: Node, ghost r: Node)
      requires Mirrors() && {node, subst, l, r} <= mem.cells.Keys && l != sentinel
      requires mem.At(subst).left == l && mem.At(subst).right == r && subst != l && subst != r
      requires p.Top? <==> node == root
      requires p.Down? ==> mem.At(p.n).Child(p.d) == node && mem.At(p.n).Child(p.d.Other()) != node
      requires p.Down? ==> p.n in mem.cells && p.n != sentinel && mem.At(node).parent == p.n && p.n != subst
      modifies this`root, this`mem, Inner()`left, Inner()`right, Inner()`parent
      ensures Mirrors() && mem == Welcomed(old(mem), p, subst, l, r)
    {
      ReplaceChild(node, subst, p);
      if subst.left != sentinel {
        SetParent(subst.left, subst);
      }
      if subst.right != sentinel {
        SetParent(subst.right, subst);
      }
    }

    /** Lines 175-217 when the node has two children and its successor takes its place. */
    method Splice(node: Node, subst: Node, temp: Node, ghost p: Path, ghost t: Tree)
      requires Mirrors() && mem.Focus(p, t) && t.Fork? && t.left.Fork? && t.right.Fork? && t.n == node
      requires subst == MinTree(t.right).n && temp == mem.RootOf(MinTree(t.right).right)
      modifies this`root, this`mem, sentinel`parent
      modifies Inner()`left, Inner()`right, Inner()`parent, Inner()`color
      ensures Mirrors() && mem == Spliced(old(mem), p, t)
    {
      HoleFacts(mem, p, t);
      SpliceNames(mem, p, t);
      PlacedFacts(mem, p, t);
      ghost var m := mem;
      Detach(node, subst, temp, p, t);
      TakePlace(subst, node);
      Welcome(node, subst, p, t.left.n, m.RootOf(DropMin(t.right)));
    }

    /** The sibling is red (lines 235-237 and 266-268). */
    method LowerParent(temp: Node, w: Node, d: Side, ghost p: Path, ghost t: Tree)
      requires Gap(p, t, temp) && p.Down? && p.d == d && p.sib.Fork? && p.sib.n == w
      modifies this`root, this`mem, Inner()`left, Inner()`right, Inner()`parent, Inner()`color
      ensures SameStock(old(mem), mem) && Gap(LoweredPath(p, p.sib, Black, Red), t, temp)
    {
      ghost var u := Join(p.d, t, p.n, Red, p.sib.(c := Black));
      SwapColors(temp, w, p, t);
      LoweredTurn(p, t, p.sib, Black, Red);
      Rotate(temp.parent, d, p.up, u);
      LoweredFocus(mem, p, t);
    }

    /** Lines 235-236 and 266-267. */
    method SwapColors(temp: Node, w: Node, ghost p: Path, ghost t: Tree)
      requires Gap(p, t, temp) && p.Down? && p.sib.Fork? && p.sib.n == w
      modifies this`mem, Inner()`color
      ensures Mirrors() && SameStock(old(mem), mem) && temp.parent == p.n
      ensures mem.Focus(p.up, Join(p.d, t, p.n, Red, p.sib.(c := Black)))
    {
      SiblingFacts(mem, p, t);
      HoleFacts(mem, p, t);
      RedSiblingFocus(mem, p, t);
      SetColor(w, Black);
      SetColor(temp.parent, Red);
      assert mem == RedSiblingMemory(old(mem), p);
    }

    /** The sibling has two black children (lines 243-244 and 274-275). */
    method ReddenSibling(temp: Node, w: Node, ghost p: Path, ghost t: Tree) returns (next: Node)
      requires Gap(p, t, temp) && p.Down? && p.sib.Fork? && p.sib.n == w
      modifies this`mem, Inner()`color
      ensures SameStock(old(mem), mem) && Gap(p.up, Reddened(p, t), next)
    {
      SiblingFacts(mem, p, t);
      HoleFacts(mem, p, t);
      PaintSib(mem, p, t, Red);
      SetColor(w, Red);
      FocusUp(mem, p.(sib := p.sib.(c := Red)), t);
      HoleFacts(mem, p.up, Reddened(p, t));
      next := temp.parent;
    }

    /** The inner child of the sibling is red (lines 248-250 and 279-281). */
    method TurnSibling(temp: Node, w: Node, near: Node, d: Side, ghost p: Path, ghost t: Tree)
      requires Gap(p, t, temp) && p.Down? && p.d == d && p.sib.Fork? && p.sib.n == w
      requires p.sib.Child(d).Fork? && p.sib.Child(d).n == near
      modifies this`root, this`mem, Inner()`left, Inner()`right, Inner()`parent, Inner()`color
      ensures SameStock(old(mem), mem) && Gap(p.(sib := TurnedSibling(p)), t, temp)
    {
      SiblingFacts(mem, p, t);
      TurnSiblingFocus(mem, p, t);
      SetColor(near, Black);
      SetColor(w, Red);
      assert mem == TurnSiblingMemory(old(mem), p);
      Rotate(w, d.Other(), SiblingPath(p, t), Repainted(p.sib, Red, d, Black));
      FocusAcross(mem, SiblingPath(p, t), TurnedSibling(p));
    }

    /** The outer child of the sibling is red (lines 254-257 and 285-288). */
    method SupplyBlack(temp: Node, w: Node, far: Node, d: Side, ghost p: Path, ghost t: Tree)
      requires Gap(p, t, temp) && p.Down? && p.d == d && p.sib.Fork? && p.sib.n == w
      requires p.sib.Child(d.Other()).Fork? && p.sib.Child(d.Other()).n == far
      modifies this`root, this`mem, Inner()`left, Inner()`right, Inner()`parent, Inner()`color
      ensures Mirrors() && SameStock(old(mem), mem) && mem.Focus(p.up, Supplied(p, t))
    {
      SiblingFacts(mem, p, t);
      HoleFacts(mem, p, t);
      SupplyFocus(mem, p, t);
      SetColor(w, temp.parent.color);
      SetColor(temp.parent, Black);
      SetColor(far, Black);
      assert mem == SupplyMemory(old(mem), p);
      Rotate(temp.parent, d, p.up, Join(p.d, t, p.n, Black, SupplySibling(p)));
    }

    /** The far nephew is red (lines 254-259 and 285-290): the missing black node is supplied, and the loop goes to
        the root, where it ends. */
    method FarRed(temp: Node, w: Node, far: Node, d: Side, ghost p: Path, ghost t: Tree, ghost k: int)
      returns (next: Node, ghost q: Path, ghost u: Tree, ghost j: int)
      requires Gap(p, t, temp) && p.Down? && p.d == d && ShortAt(p, t, k) && IsBlack(t)
      requires p.sib.Fork? && IsBlack(p.sib) && p.sib.n == w
      requires p.sib.Child(d.Other()).Fork? && p.sib.Child(d.Other()).n == far && !IsBlack(p.sib.Child(d.Other()))
      modifies this`root, this`mem, Inner()`left, Inner()`right, Inner()`parent, Inner()`color
      ensures SameStock(old(mem), mem) && Gap(q, u, next) && ShortAt(q, u, j)
      ensures SameNodes(p, t, q, u) && q.Top?
    {
      j := SuppliedBalanced(p, t, k);
      SupplyBlack(temp, w, far, d, p, t);
      q, u := Top, Plug(p.up, Supplied(p, t));
      FocusWhole(mem, p.up, Supplied(p, t));
      HoleFacts(mem, Top, u);
      next := root;
    }

    /** The sibling is black (lines 242-260 and 273-291); next is the root when the flaw is mended. */
    method BlackSibling(temp: Node, w0: Node, d: Side, ghost p: Path, ghost t: Tree, ghost k: int)
      returns (next: Node, ghost q: Path, ghost u: Tree, ghost j: int)
      requires Gap(p, t, temp) && p.Down? && p.d == d && ShortAt(p, t, k) && IsBlack(t)
      requires p.sib.Fork? && IsBlack(p.sib) && p.sib.n == w0 && mem.At(sentinel).color.Black?
      modifies this`root, this`mem, Inner()`left, Inner()`right, Inner()`parent, Inner()`color
      ensures SameStock(old(mem), mem) && Gap(q, u, next) && ShortAt(q, u, j)
      ensures SameNodes(p, t, q, u) && ((q == p.up && u == Reddened(p, t)) || q.Top?)
    {
      SiblingFacts(mem, p, t);
      var w := w0;
      if w.left.color.Black? && w.right.color.Black? {
        ReddenedShort(p, t, k);
        q, u, j := p.up, Reddened(p, t), if p.c.Black? then k + 1 else k;
        next := ReddenSibling(temp, w, p, t);
      } else {
        ghost var v := p;
        var far := if d.L? then w.right else w.left;
        if far.color.Black? {
          TurnedSiblingShort(p, t, k);
          v := p.(sib := TurnedSibling(p));
          TurnSibling(temp, w, if d.L? then w.left else w.right, d, p, t);
          SiblingFacts(mem, v, t);
          HoleFacts(mem, v, t);
          w := if d.L? then temp.parent.right else temp.parent.left;
          far := if d.L? then w.right else w.left;
        }
        next, q, u, j := FarRed(temp, w, far, d, v, t, k);
      }
    }

    /** One turn of the loop (lines 231-292). */
    method DeleteStep(temp: Node, ghost p: Path, ghost t: Tree, ghost k: int)
      returns (next: Node, ghost q: Path, ghost u: Tree, ghost j: int)
      requires Gap(p, t, temp) && p.Down? && ShortAt(p, t, k) && IsBlack(t) && mem.At(sentinel).color.Black?
      modifies this`root, this`mem, Inner()`left, Inner()`right, Inner()`parent, Inner()`color
      ensures SameStock(old(mem), mem) && Gap(q, u, next) && ShortAt(q, u, j)
      ensures SameNodes(p, t, q, u) && (IsBlack(u) ==> Depth(q) < Depth(p))
    {
      HoleFacts(mem, p, t);
      SiblingIsReal(p, t, k);
      SiblingFacts(mem, p, t);
      var d := if temp == temp.parent.left then L else R;
      assert d == p.d;
      var w := if d.L? then temp.parent.right else temp.parent.left;
      ghost var v := p;
      if w.color.Red? {
        RedSiblingShort(p, t, k);
        v := LoweredPath(p, p.sib, Black, Red);
        LowerParent(temp, w, d, p, t);
        HoleFacts(mem, v, t);
        SiblingFacts(mem, v, t);
        w := if d.L? then temp.parent.right else temp.parent.left;
      }
      next, q, u, j := BlackSibling(temp, w, d, v, t, k);
    }

    /** The loop (lines 229-293). */
    method DeleteLoop(first: Node, ghost p0: Path, ghost t0: Tree, ghost k0: int)
      returns (temp: Node, ghost p: Path, ghost t: Tree, ghost k: int)
      requires Gap(p0, t0, first) && ShortAt(p0, t0, k0) && mem.At(sentinel).color.Black?
      modifies this`root, this`mem, Inner()`left, Inner()`right, Inner()`parent, Inner()`color
      ensures SameStock(old(mem), mem) && Gap(p, t, temp) && ShortAt(p, t, k)
      ensures SameNodes(p0, t0, p, t) && (p.Top? || !IsBlack(t))
    {
      temp, p, t, k := first, p0, t0, k0;
      HoleFacts(mem, p, t);
      while temp != root && temp.color.Black?
        invariant SameStock(old(mem), mem) && Gap(p, t, temp) && ShortAt(p, t, k)
        invariant SameNodes(p0, t0, p, t)
        invariant temp in mem.cells && (temp == root <==> p.Top?) && (temp.color.Black? <==> IsBlack(t))
        decreases if IsBlack(t) then Depth(p) else 0
      {
        temp, p, t, k := DeleteStep(temp, p, t, k);
        HoleFacts(mem, p, t);
      }
    }

    /** Line 295. */
    method PaintLast(temp: Node, ghost p: Path, ghost t: Tree)
      requires Mirrors() && mem.Focus(p, t) && temp == mem.RootOf(t) && mem.At(sentinel).color.Black?
      modifies this`mem, temp`color
      ensures Mirrors() && mem.cells.Keys == old(mem.cells.Keys) && mem.At(sentinel).color.Black?
      ensures mem.Focus(Top, Plug(p, Blackened(t)))
    {
      HoleFacts(mem, p, t);
      PaintGap(mem, p, t);
      SetColor(temp, Black);
      FocusWhole(mem, p, Blackened(t));
    }

    /** Lines 229-295. */
    method DeleteFixup(first: Node, ghost p0: Path, ghost t0: Tree, ghost k0: int) returns (ghost w: Tree)
      requires Gap(p0, t0, first) && ShortAt(p0, t0, k0) && mem.At(sentinel).color.Black?
      modifies this`root, this`mem, sentinel`color
      modifies Inner()`left, Inner()`right, Inner()`parent, Inner()`color
      ensures Mirrors() && mem.cells.Keys == old(mem.cells.Keys) && mem.At(sentinel).color.Black?
      ensures mem.Focus(Top, w) && RedBlack(w)
      ensures InOrder(w) == InOrder(Plug(p0, t0)) && Nodes(w) == PathNodes(p0) + Nodes(t0)
    {
      var temp;
      ghost var p, t, k;
      temp, p, t, k := DeleteLoop(first, p0, t0, k0);
      DeleteDone(p, t, k);
      DeleteDoneNodes(p, t);
      w := Plug(p, Blackened(t));
      PaintLast(temp, p, t);
    }

    /** Lines 165-168 and 219-222: the node is out of the tree. */
    method Forget(node: Node)
      requires Mirrors() && node in mem.cells && node != sentinel
      modifies this`mem, node
      ensures Mirrors() && mem == old(mem).Without(node)
      ensures Cleared(node)
    {
      node.left := null;
      node.right := null;
      node.parent := null;
      node.key := 0;
      mem := mem.Without(node);
    }

    /** Lines 161-171: the root goes and its only child, if any, becomes the root. */
    method RemoveRoot(node: Node, temp: Node, ghost t: Tree, ghost u: Tree)
      requires Mirrors() && mem.Focus(Top, t) && RedBlack(t) && OnlyChild(t, u) && t.n == node && temp == mem.RootOf(u)
      requires mem.At(sentinel).color.Black?
      modifies this`root, this`mem, sentinel`color, Inner()`color, node
      ensures Mirrors() && mem.cells.Keys == old(mem.cells.Keys) - {node} && mem.At(sentinel).color.Black?
      ensures mem.Focus(Top, Blackened(u)) && RedBlack(Blackened(u))
      ensures Cleared(node)
    {
      HoleFacts(mem, Top, t);
      NewRootFocus(mem, t, u);
      ghost var k := UnplugBalanced(Top, t);
      assert Balanced(Blackened(u), if IsBlack(u) then k - 1 else k);
      SetRoot(temp);
      PaintLast(temp, Top, u);
      FocusWithout(mem, Top, Blackened(u), node);
      Forget(node);
    }

    /** Lines 173-222 when the node itself is taken out. */
    method RemoveHere(node: Node, temp: Node, ghost p: Path, ghost t: Tree, ghost u: Tree)
      requires Mirrors() && mem.Focus(p, t) && p.Down? && OnlyChild(t, u) && t.n == node && temp == mem.RootOf(u)
      modifies this`mem, sentinel`parent, Inner()`left, Inner()`right, Inner()`parent, node
      ensures Gap(p, u, temp) && mem.cells.Keys == old(mem.cells.Keys) - {node}
      ensures mem.At(sentinel).color == old(mem.At(sentinel).color)
      ensures Cleared(node)
    {
      HoleFacts(mem, p, t);
      BypassedFocus(mem, p, t, u);
      TakeOut(node, temp, p, t, u);
      FocusWithout(mem, p, u, node);
      Forget(node);
    }

    /** Lines 173-222 when the successor takes the place of the node. */
    method RemoveThere(node: Node, subst: Node, temp: Node, ghost p: Path, ghost t: Tree)
      requires Mirrors() && mem.Focus(p, t) && t.Fork? && t.left.Fork? && t.right.Fork? && t.n == node
      requires subst == MinTree(t.right).n && temp == mem.RootOf(GapTree(t))
      modifies this`root, this`mem, sentinel`parent
      modifies Inner()`left, Inner()`right, Inner()`parent, Inner()`color, node
      ensures Gap(GapPath(p, t), GapTree(t), temp) && mem.cells.Keys == old(mem.cells.Keys) - {node}
      ensures mem.At(sentinel).color == old(mem.At(sentinel).color)
      ensures Cleared(node)
    {
      HoleFacts(mem, p, t);
      SplicedFocus(mem, p, t);
      SplicedOut(p, t);
      Splice(node, subst, temp, p, t);
      FocusWithout(mem, GapPath(p, t), GapTree(t), node);
      Forget(node);
    }

    /** Lines 142-171 and 173-222 for a node with one child at most; the result says what is left to mend. */
    method DeleteHere(node: Node, temp: Node, ghost p: Path, ghost t: Tree, ghost u: Tree)
      returns (ghost w: Tree, ghost a: seq<Node>, ghost b: seq<Node>)
      requires Mirrors() && mem.Focus(p, t) && OnlyChild(t, u) && t.n == node && temp == mem.RootOf(u)
      requires RedBlack(Plug(p, t)) && mem.At(sentinel).color.Black?
      modifies this`root, this`mem, sentinel`parent, sentinel`color
      modifies Inner()`left, Inner()`right, Inner()`parent, Inner()`color, node
      ensures Mirrors() && mem.cells.Keys == old(mem.cells.Keys) - {node} && mem.At(sentinel).color.Black?
      ensures mem.Focus(Top, w) && RedBlack(w)
      ensures InOrder(Plug(p, t)) == a + [node] + b && InOrder(w) == a + b
      ensures Nodes(w) == PathNodes(p) + Nodes(t) - {node}
      ensures Cleared(node)
    {
      HoleFacts(mem, p, t);
      a, b := HereOrder(p, t, u);
      if node == root {
        RemoveRoot(node, temp, t, u);
        w := Blackened(u);
        DeleteDoneNodes(p, u);
        return;
      }
      AlikeSelf(p);
      ghost var k := TakenOut(p, p, t, u);
      var red := node.color.Red?;
      RemoveHere(node, temp, p, t, u);
      w := Mend(red, temp, p, u, k, node);
    }

    /** Lines 224-295. */
    method Mend(red: bool, temp: Node, ghost p: Path, ghost t: Tree, ghost k: int, ghost gone: Node) returns (ghost w: Tree)
      requires Gap(p, t, temp) && mem.At(sentinel).color.Black? && gone !in mem.cells && Cleared(gone)
      requires if red then RedBlack(Plug(p, t)) else ShortAt(p, t, k)
      modifies this`root, this`mem, sentinel`color
      modifies Inner()`left, Inner()`right, Inner()`parent, Inner()`color
      ensures Mirrors() && mem.cells.Keys == old(mem.cells.Keys) && mem.At(sentinel).color.Black?
      ensures mem.Focus(Top, w) && RedBlack(w)
      ensures InOrder(w) == InOrder(Plug(p, t)) && Nodes(w) == PathNodes(p) + Nodes(t) && Cleared(gone)
    {
      if red {
        w := Plug(p, t);
        FocusWhole(mem, p, t);
        PlugNodes(p, t);
        return;
      }
      w := DeleteFixup(temp, p, t, k);
    }

    /** Lines 151-158; the successor has no left child, so its right child is what replaces it. */
    method Successor(node: Node, ghost p: Path, ghost t: Tree) returns (subst: Node, temp: Node)
      requires Mirrors() && mem.Focus(p, t) && t.Fork? && t.right.Fork? && t.n == node
      ensures subst == MinTree(t.right).n && subst.color == MinTree(t.right).c && temp == mem.RootOf(GapTree(t))
    {
      ghost var q := Lower(p, t, R);
      HoleFacts(mem, p, t);
      FocusDown(mem, p, t, R);
      ghost var steps;
      subst, steps := Min(node.right, q, t.right);
      MinFocus(mem, q, t.right);
      HoleFacts(mem, MinPath(q, t.right), MinTree(t.right));
      assert subst.left == sentinel;
      temp := subst.right;
    }

    /** Lines 151-158 and 173-295 for a node with two children. */
    method DeleteThere(node: Node, ghost p: Path, ghost t: Tree)
      returns (ghost w: Tree, ghost a: seq<Node>, ghost b: seq<Node>)
      requires Mirrors() && mem.Focus(p, t) && t.Fork? && t.left.Fork? && t.right.Fork? && t.n == node
      requires RedBlack(Plug(p, t)) && mem.At(sentinel).color.Black?
      modifies this`root, this`mem, sentinel`parent, sentinel`color
      modifies Inner()`left, Inner()`right, Inner()`parent, Inner()`color, node
      ensures Mirrors() && mem.cells.Keys == old(mem.cells.Keys) - {node} && mem.At(sentinel).color.Black?
      ensures mem.Focus(Top, w) && RedBlack(w)
      ensures InOrder(Plug(p, t)) == a + [node] + b && InOrder(w) == a + b
      ensures Nodes(w) == PathNodes(p) + Nodes(t) - {node}
      ensures Cleared(node)
    {
      HoleFacts(mem, p, t);
      var subst, temp := Successor(node, p, t);
      a, b := SplicedOrder(p, t);
      SplicedOut(p, t);
      ghost var k := SplicedColors(p, t);
      var red := subst.color.Red?;
      RemoveThere(node, subst, temp, p, t);
      w := Mend(red, temp, GapPath(p, t), GapTree(t), k, node);
    }

    /** Lines 142-296, where node is at the top of t. */
    method DeleteAt(node: Node, ghost p: Path, ghost t: Tree)
      returns (ghost w: Tree, ghost a: seq<Node>, ghost b: seq<Node>)
      requires Mirrors() && mem.Focus(p, t) && t.Fork? && t.n == node
      requires RedBlack(Plug(p, t)) && mem.At(sentinel).color.Black?
      modifies this`root, this`mem, sentinel`parent, sentinel`color
      modifies Inner()`left, Inner()`right, Inner()`parent, Inner()`color, node
      ensures Mirrors() && mem.cells.Keys == old(mem.cells.Keys) - {node} && mem.At(sentinel).color.Black?
      ensures mem.Focus(Top, w) && RedBlack(w)
      ensures InOrder(Plug(p, t)) == a + [node] + b && InOrder(w) == a + b
      ensures Nodes(w) == PathNodes(p) + Nodes(t) - {node}
      ensures Cleared(node)
    {
      HoleFacts(mem, p, t);
      if node.left == sentinel {
        w, a, b := DeleteHere(node, node.right, p, t, t.right);
      } else if node.right == sentinel {
        w, a, b := DeleteHere(node, node.left, p, t, t.left);
      } else {
        w, a, b := DeleteThere(node, p, t);
      }
    }

    /** rbtree_delete: node goes from between the nodes a and b. */
    method Delete(node: Node) returns (ghost a: seq<Node>, ghost b: seq<Node>)
      requires Valid() && node in Nodes(tree)
      modifies this`root, this`mem, this`tree, sentinel`parent, sentinel`color
      modifies Nodes(tree)`left, Nodes(tree)`right, Nodes(tree)`parent, Nodes(tree)`color, node
      ensures Valid() && Nodes(tree) == old(Nodes(tree)) - {node} && mem.cells.Keys == Nodes(tree) + {sentinel}
      ensures old(InOrder(tree)) == a + [node] + b && InOrder(tree) == a + b
      ensures Cleared(node)
    {
      assert Inner() == Nodes(tree);
      ghost var p, t := FocusOn(mem, Top, tree, node);
      PlugNodes(p, t);
      ghost var w;
      w, a, b := DeleteAt(node, p, t);
      Settle(w);
    }

    // ------------------------------------------------------------ the first node

    method IsEmpty() returns (empty: bool)
      requires Valid()
      ensures empty <==> InOrder(tree) == []
    {
      HoleFacts(mem, Top, tree);
      empty := root == sentinel;
    }

    /** rbtree_min from the root of a tree that is not empty. */
    method First() returns (min: Node, ghost steps: nat)
      requires Valid() && InOrder(tree) != []
      ensures min == InOrder(tree)[0]
      ensures Pow2(steps) <= (|InOrder(tree)| + 1) * (|InOrder(tree)| + 1)
    {
      HoleFacts(mem, Top, tree);
      MinFacts(Top, tree);
      min, steps := Min(root, Top, tree);
      HeightBound(tree);
      Pow2Grows(steps, Height(tree));
    }

    /** The child links and the parent links of a valid tree agree. Of the node at the root, the parent link says nothing. */
    lemma LinksAgree(n: Node)
      requires Valid() && n in Nodes(tree)
      ensures n.left != null && (n.left == sentinel || (n.left in Nodes(tree) && n.left.parent == n))
      ensures n.right != null && (n.right == sentinel || (n.right in Nodes(tree) && n.right.parent == n))
      ensures n != root ==> n.parent != null && n.parent in Nodes(tree) && (n == n.parent.left <==> n != n.parent.right)
    {
      LinksOfTree(mem, tree, mem.At(root).parent, n);
      assert mem.At(n).Child(L) == n.left && mem.At(n).Child(R) == n.right;
    }
  }
}
