/** event_timer.c and event_timer.h: the timers of one thread, kept in a red-black tree. */
module EventTimer {
  import opened RbNode
  import opened RbShape
  import opened RbInsert
  import opened RbTree
  import opened TimerList
  import opened Events

  /** The timers at the nodes of s. */
  ghost function Timers(s: seq<Node>, due: map<Node, int>): (q: seq<Timer>)
    requires forall n :: n in s ==> n in due
    ensures |q| == |s| && forall i :: 0 <= i < |q| ==> q[i] == Timer(s[i], due[s[i]])
  {
    seq(|s|, i requires 0 <= i < |s| => Timer(s[i], due[s[i]]))
  }

  /** ks are the keys of the nodes of s, near d. */
  ghost predicate Keyed(s: seq<Node>, due: map<Node, int>, ks: Keys, d: int) {
    forall n :: n in s ==> n in due && n in ks && ks[n] == Word(due[n]) && -TWO_63 < due[n] - d < TWO_63
  }

  lemma EarlierParts(s: seq<Node>, due: map<Node, int>, ks: Keys, d: int)
    requires Keyed(s, due, ks, d) && Sorted(Timers(s, due))
    ensures Parts(s, ks, InsertTimerValue, Word(d))
  {
    var k := Earlier(Timers(s, due), d);
    forall n | n in s
      ensures GoesLeft(InsertTimerValue, Word(d), ks[n]) <==> d < due[n]
    {
      SignedDifference(d, due[n]);
    }
    assert NoneLeft(s[..k], ks, InsertTimerValue, Word(d));
    assert AllLeft(s[k..], ks, InsertTimerValue, Word(d));
  }

  /** The tree's descent finds the place of a timer by its true deadline. */
  lemma DescentIsExact(a: seq<Node>, b: seq<Node>, due: map<Node, int>, ks: Keys, d: int)
    requires Keyed(a + b, due, ks, d) && Sorted(Timers(a + b, due))
    requires Parts(a + b, ks, InsertTimerValue, Word(d)) ==>
      NoneLeft(a, ks, InsertTimerValue, Word(d)) && AllLeft(b, ks, InsertTimerValue, Word(d))
    ensures forall n :: n in a ==> due[n] <= d
    ensures forall n :: n in b ==> d < due[n]
  {
    EarlierParts(a + b, due, ks, d);
    forall n | n in a || n in b
      ensures n in a ==> due[n] <= d
      ensures n in b ==> d < due[n]
    {
      assert n in a + b;
      SignedDifference(d, due[n]);
    }
  }

  /** A call of event_add_timer at the time of day now. */
  datatype Request = Request(now: int, delay: Key)

  function Deadlines(requests: seq<Request>): (ds: seq<int>)
    ensures |ds| == |requests|
    ensures forall i :: 0 <= i < |ds| ==> ds[i] == requests[i].now + requests[i].delay
  {
    seq(|requests|, i requires 0 <= i < |requests| => requests[i].now + requests[i].delay)
  }

  class TimerQueue {
    const tree: RbTree
    /** The true deadlines, of which the keys in the nodes are the last 64 bits. */
    ghost var due: map<Node, int>

    ghost predicate Synced()
      reads this`due, tree
    {
      due.Keys == Nodes(tree.tree) && tree.mem.cells.Keys == due.Keys + {tree.sentinel}
    }

    ghost predicate Valid()
      reads this, tree, tree.mem.cells.Keys
    {
      && tree.Valid() && tree.insert.InsertTimerValue?
      && Synced()
      && (forall n :: n in due ==> n.key == Word(due[n]))
      && Sorted(Queue())
    }

    /** The timers in the order of the tree. */
    ghost function Queue(): seq<Timer>
      reads this, tree
      requires Synced()
    {
      InOrderNodes(tree.tree);
      Timers(InOrder(tree.tree), due)
    }

    /** event_timer_init. */
    constructor (s: Node)
      modifies s`color
      ensures Valid() && Synced() && due == map[] && Queue() == [] && tree.sentinel == s && fresh(tree)
    {
      tree := new RbTree(s, InsertTimerValue);
      due := map[];
    }

    lemma KeysAreWords(d: int)
      requires Valid() && Near(Queue(), d)
      ensures Keyed(InOrder(tree.tree), due, tree.KeyMap(), d)
    {
      InOrderNodes(tree.tree);
      NearKeyed(InOrder(tree.tree), due, tree.KeyMap(), d);
    }

    method Insert(node: Node, ghost d: int)
      requires Valid() && node !in due && node != tree.sentinel && node.key == Word(d) && Near(Queue(), d)
      modifies this`due, tree, tree.sentinel, due.Keys, node
      ensures Valid() && Synced() && due == old(due)[node := d]
      ensures Queue() == StableInsert(old(Queue()), Timer(node, d))
    {
      hide RbTree.Valid;
      ghost var ks, s := tree.KeyMap(), InOrder(tree.tree);
      KeysAreWords(d);
      ghost var a, b := tree.Insert(node);
      assert s == a + b;
      DescentIsExact(a, b, due, ks, d);
      Record(a, b, node, d);
    }

    /** The true deadline of a node just put in the tree between the nodes a and b. */
    ghost method Record(a: seq<Node>, b: seq<Node>, node: Node, d: int)
      requires tree.Valid() && tree.insert.InsertTimerValue? && node !in due && node.key == Word(d)
      requires Nodes(tree.tree) == due.Keys + {node} && tree.mem.cells.Keys == Nodes(tree.tree) + {tree.sentinel}
      requires InOrder(tree.tree) == a + [node] + b && (forall x :: x in a + b ==> x in due)
      requires forall x :: x in due ==> x.key == Word(due[x])
      requires Sorted(Timers(a + b, due)) && (forall x :: x in a ==> due[x] <= d) && (forall x :: x in b ==> d < due[x])
      modifies this`due
      ensures Valid() && Synced() && due == old(due)[node := d]
      ensures Queue() == StableInsert(old(Timers(a + b, due)), Timer(node, d))
    {
      hide RbTree.Valid;
      InsertedQueue(a, b, node, due, d);
      due := due[node := d];
    }

    method Remove(node: Node)
      requires Valid() && node in due
      modifies this`due, tree, tree.sentinel, due.Keys
      ensures Valid() && Synced() && due == old(due) - {node} && Cleared(node)
      ensures Queue() == Without(old(Queue()), node)
    {
      hide RbTree.Valid;
      QueueOnce();
      ghost var s := InOrder(tree.tree);
      ghost var a, b := tree.Delete(node);
      assert s == a + [node] + b;
      RemovedQueue(a, b, node, due);
      due := due - {node};
    }

    /** The list and the map say the same. */
    lemma QueueIsDue()
      requires Valid()
      ensures forall n :: n in due ==> Timer(n, due[n]) in Queue()
      ensures forall t :: t in Queue() ==> t.node in due && due[t.node] == t.due
    {
      InOrderNodes(tree.tree);
      forall n | n in due
        ensures Timer(n, due[n]) in Queue()
      {
        var i :| 0 <= i < |InOrder(tree.tree)| && InOrder(tree.tree)[i] == n;
        assert Queue()[i] == Timer(n, due[n]);
      }
    }

    lemma QueueOnce()
      requires Valid()
      ensures Once(InOrder(tree.tree)) && forall n :: n in InOrder(tree.tree) ==> n in due
    {
      InOrderNodes(tree.tree);
      InOrderOnce(tree.tree);
    }

    method IsEmpty() returns (empty: bool)
      requires Valid()
      ensures empty <==> Queue() == []
    {
      empty := tree.IsEmpty();
    }

    method First() returns (node: Node)
      requires Valid() && Queue() != []
      ensures node in due && Queue()[0] == Timer(node, due[node])
    {
      InOrderNodes(tree.tree);
      ghost var steps;
      node, steps := tree.First();
    }

    // ------------------------------------------------------------ events

    /** What the program keeps up: the flag of ev tells whether its node is in the tree. */
    ghost predicate Tracks(ev: Event)
      reads this, ev
    {
      ev.timer != tree.sentinel && (ev.timerSet <==> ev.timer in due)
    }

    /** event_del_timer: nothing checks that the timer is armed. */
    method DelTimer(ev: Event)
      requires Valid() && ev.timer in due
      modifies this`due, tree, tree.sentinel, due.Keys, ev`timerSet
      ensures Valid() && Synced() && due == old(due) - {ev.timer} && !ev.timerSet
      ensures Queue() == Without(old(Queue()), ev.timer)
    {
      hide RbTree.Valid;
      Remove(ev.timer);
      ev.timerSet := false;
    }

    /** Arms a timer that is not armed (lines 75-83 of event_timer.h). */
    method Arm(ev: Event, key: Key, ghost d: int)
      requires Valid() && ev.timer !in due && ev.timer != tree.sentinel && key == Word(d) && Near(Queue(), d)
      modifies this`due, tree, tree.sentinel, due.Keys, ev`timerSet, ev.timer
      ensures Valid() && Synced() && due == old(due)[ev.timer := d] && ev.timerSet
      ensures Queue() == StableInsert(old(Queue()), Timer(ev.timer, d))
    {
      hide RbTree.Valid;
      ev.timer.key := key;
      Insert(ev.timer, d);
      ev.timerSet := true;
    }

    /** Lines 58-73 of event_timer.h: a short move is dropped, a long one disarms the timer first. */
    method Prepare(ev: Event, key: Key, ghost d: int) returns (keep: bool)
      requires Valid() && Tracks(ev) && Near(Queue(), d) && key == Word(d)
      modifies this`due, tree, tree.sentinel, due.Keys, ev`timerSet
      ensures Valid() && Synced() && Tracks(ev) && Near(Queue(), d) && (keep <==> ev.timerSet)
      ensures keep <==> old(ev.timerSet) && IsLazy(d - old(due)[ev.timer])
      ensures if keep then due == old(due) && Queue() == old(Queue())
        else due == old(due) - {ev.timer} && Queue() == Without(old(Queue()), ev.timer)
    {
      hide RbTree.Valid;
      if !ev.timerSet {
        NotQueued(ev.timer);
        return false;
      }
      var diff := Signed64(WrapSub(key, ev.timer.key));
      NearOne(ev.timer, d);
      SignedDifference(d, due[ev.timer]);
      if IsLazy(diff) {
        return true;
      }
      WithoutNear(Queue(), ev.timer, d);
      DelTimer(ev);
      return false;
    }

    /** event_add_timer, now being the time of day. */
    method AddTimer(ev: Event, now: int, timer: Key)
      requires Valid() && Tracks(ev) && Near(Queue(), now + timer)
      modifies this`due, tree, tree.sentinel, due.Keys, ev`timerSet, ev.timer
      ensures Valid() && Synced() && ev.timerSet && ev.timer in due
      ensures if old(ev.timerSet) && IsLazy(now + timer - old(due)[ev.timer])
        then due == old(due) && Queue() == old(Queue())
        else
          && due == old(due)[ev.timer := now + timer]
          && Queue() == StableInsert(Without(old(Queue()), ev.timer), Timer(ev.timer, now + timer))
    {
      hide RbTree.Valid;
      var key := WrapAdd(Word(now), timer);
      WrapAddWord(now, timer);
      var keep := Prepare(ev, key, now + timer);
      if keep {
        return;
      }
      ghost var q, dues := Queue(), due;
      assert q == Without(old(Queue()), ev.timer) && dues == old(due) - {ev.timer};
      Arm(ev, key, now + timer);
      Replaced(old(due), ev.timer, now + timer);
    }

    /** event_add_timer again and again for an armed timer: it is where the requests, taken one after the other, lead,
        and if they are not too far from one another it is less than the lazy delay away from the last. */
    method AddTimers(ev: Event, requests: seq<Request>)
      requires Valid() && Tracks(ev) && ev.timerSet && AllNear(requests)
      modifies this`due, tree, tree.sentinel, due.Keys, ev`timerSet, ev.timer
      ensures Valid() && Synced() && ev.timerSet
      ensures due == old(due)[ev.timer := RearmedAll(old(due)[ev.timer], Deadlines(requests))]
      ensures var ds := Deadlines(requests);
        ds != [] && StepsBelow(old(due)[ev.timer], ds, 0x8000_0000 - 299) ==>
          -300 < due[ev.timer] - ds[|ds| - 1] < 300
    {
      hide RbTree.Valid;
      hide Valid;
      hide AllNear;
      hide Queue;
      IsSynced();
      ghost var first, ds := due[ev.timer], Deadlines(requests);
      assert ds[..0] == [];
      for i := 0 to |requests|
        invariant Valid() && Synced() && Tracks(ev) && ev.timerSet && AllNear(requests)
        invariant due == old(due)[ev.timer := RearmedAll(first, ds[..i])]
      {
        assert ds[..i + 1][..i] == ds[..i];
        AddOne(ev, requests, i);
      }
      assert ds[..|ds|] == ds;
      if ds != [] && StepsBelow(first, ds, 0x8000_0000 - 299) {
        RearmedAllWithinDelay(first, ds, 0x8000_0000 - 299);
      }
    }

    lemma IsSynced()
      requires Valid()
      ensures Synced()
    {
    }

    method AddOne(ev: Event, requests: seq<Request>, i: nat)
      requires Valid() && Tracks(ev) && ev.timerSet && AllNear(requests) && i < |requests|
      modifies this`due, tree, tree.sentinel, due.Keys, ev`timerSet, ev.timer
      ensures Valid() && Synced() && Tracks(ev) && ev.timerSet && AllNear(requests)
      ensures due == old(due)[ev.timer := Rearmed(old(due)[ev.timer], Deadlines(requests)[i])]
    {
      hide RbTree.Valid;
      hide Near;
      hide Sorted;
      ghost var q := Queue();
      var r := requests[i];
      assert r.now + r.delay == Deadlines(requests)[i];
      AddTimer(ev, r.now, r.delay);
      forall j | 0 <= j < |requests|
        ensures Near(Queue(), Deadlines(requests)[j])
      {
        WithoutNear(q, ev.timer, Deadlines(requests)[j]);
        StableInsertNear(Without(q, ev.timer), Timer(ev.timer, r.now + r.delay), Deadlines(requests)[j]);
      }
    }

    /** The deadlines asked for are less than half the range of a word from all that are pending and from one another. */
    ghost predicate AllNear(requests: seq<Request>)
      reads this, tree
      requires Synced()
    {
      var ds := Deadlines(requests);
      && (forall i :: 0 <= i < |ds| ==> Near(Queue(), ds[i]))
      && (forall i, j :: 0 <= i < |ds| && 0 <= j < |ds| ==> -TWO_63 < ds[i] - ds[j] < TWO_63)
    }

    lemma NearOne(node: Node, d: int)
      requires Valid() && node in due && Near(Queue(), d)
      ensures -TWO_63 < due[node] - d < TWO_63
    {
      InOrderNodes(tree.tree);
      var i :| 0 <= i < |InOrder(tree.tree)| && InOrder(tree.tree)[i] == node;
      assert Queue()[i].due == due[node];
    }

    lemma NotQueued(node: Node)
      requires Valid() && node !in due
      ensures Without(Queue(), node) == Queue()
    {
      InOrderNodes(tree.tree);
      WithoutNone(Queue(), node);
    }

    /** event_find_timer, now being the time of day: the time left until the first deadline, -1 if there is none. */
    method FindTimer(now: int) returns (left: Key)
      requires Valid() && Near(Queue(), now)
      ensures Queue() == [] ==> left == Word(-1)
      ensures Queue() != [] ==> left == if Queue()[0].due > now then Queue()[0].due - now else 0
    {
      var empty := IsEmpty();
      if empty {
        return Word(-1);
      }
      var node := First();
      SignedDifference(due[node], now);
      var timer := Signed64(WrapSub(node.key, Word(now)));
      left := if timer > 0 then timer else 0;
    }
  }

  lemma Replaced(due: map<Node, int>, n: Node, d: int)
    ensures (due - {n})[n := d] == due[n := d]
  {
  }

  lemma NearKeyed(s: seq<Node>, due: map<Node, int>, ks: Keys, d: int)
    requires forall n :: n in s ==> n in due && n in ks && ks[n] == Word(due[n])
    requires Near(Timers(s, due), d)
    ensures Keyed(s, due, ks, d)
  {
    forall n | n in s
      ensures -TWO_63 < due[n] - d < TWO_63
    {
      var i :| 0 <= i < |s| && s[i] == n;
      assert Timers(s, due)[i].due == due[n];
    }
  }

  lemma InsertedQueue(a: seq<Node>, b: seq<Node>, n: Node, due: map<Node, int>, d: int)
    requires forall x :: x in a + b ==> x in due && x != n
    requires Sorted(Timers(a + b, due))
    requires forall x :: x in a ==> due[x] <= d
    requires forall x :: x in b ==> d < due[x]
    ensures forall x :: x in a + [n] + b ==> x in due[n := d]
    ensures Timers(a + [n] + b, due[n := d]) == StableInsert(Timers(a + b, due), Timer(n, d))
    ensures Sorted(Timers(a + [n] + b, due[n := d]))
  {
    assert Timers(a + b, due) == Timers(a, due) + Timers(b, due);
    assert Timers(a + [n] + b, due[n := d]) == Timers(a, due) + [Timer(n, d)] + Timers(b, due);
    StableInsertParts(Timers(a, due), Timers(b, due), Timer(n, d));
    StableInsertSorted(Timers(a + b, due), Timer(n, d));
  }

  lemma NotElsewhere(a: seq<Node>, n: Node, b: seq<Node>)
    requires Once(a + [n] + b)
    ensures forall x :: x in a || x in b ==> x != n
  {
    var s := a + [n] + b;
    forall x | x in a || x in b
      ensures x != n
    {
      if x in a {
        var i :| 0 <= i < |a| && a[i] == x;
        assert s[i] == x && s[|a|] == n;
      } else {
        var i :| 0 <= i < |b| && b[i] == x;
        assert s[|a| + 1 + i] == x && s[|a|] == n;
      }
    }
  }

  lemma RemovedQueue(a: seq<Node>, b: seq<Node>, n: Node, due: map<Node, int>)
    requires forall x :: x in a + [n] + b ==> x in due
    requires Once(a + [n] + b) && Sorted(Timers(a + [n] + b, due))
    ensures forall x :: x in a + b ==> x in due - {n}
    ensures Timers(a + b, due - {n}) == Without(Timers(a + [n] + b, due), n)
    ensures Sorted(Timers(a + b, due - {n}))
  {
    var s := a + [n] + b;
    NotElsewhere(a, n, b);
    hide Sorted;
    hide Once;
    assert forall x :: x in a + b ==> x in a || x in b;
    assert Timers(s, due) == Timers(a, due) + [Timer(n, due[n])] + Timers(b, due);
    forall i | 0 <= i < |a + b|
      ensures (a + b)[i] != n && (Timers(a, due) + Timers(b, due))[i] == Timers(a + b, due - {n})[i]
    {
      assert (a + b)[i] in a + b;
    }
    assert Timers(a + b, due - {n}) == Timers(a, due) + Timers(b, due);
    WithoutParts(Timers(a, due), Timer(n, due[n]), Timers(b, due));
    WithoutSorted(Timers(s, due), n);
  }
}
