/**
 Timers as a plain list in order of deadline, the deadlines being unbounded integers: what the
 timer tree with its wrapping 64-bit keys stands for.
 */
module TimerList {
  import opened RbNode

  datatype Timer = Timer(node: Node, due: int)

  /** The key that stands for a time in milliseconds: its value as a 64-bit word. */
  function Word(t: int): Key {
    t % TWO_64
  }

  ghost predicate Sorted(q: seq<Timer>) {
    forall i, j :: 0 <= i < j < |q| ==> q[i].due <= q[j].due
  }

  /** All deadlines of q are less than half the range of a word away from t. */
  ghost predicate Near(q: seq<Timer>, t: int) {
    forall i :: 0 <= i < |q| ==> -TWO_63 < q[i].due - t < TWO_63
  }

  /** t goes behind every timer that is due no later. */
  ghost function StableInsert(q: seq<Timer>, t: Timer): seq<Timer> {
    if q == [] || t.due < q[0].due then [t] + q else [q[0]] + StableInsert(q[1..], t)
  }

  lemma {:induction false} StableInsertParts(a: seq<Timer>, b: seq<Timer>, t: Timer)
    requires forall x :: x in a ==> x.due <= t.due
    requires forall x :: x in b ==> t.due < x.due
    ensures StableInsert(a + b, t) == a + [t] + b
  {
    if a == [] {
      assert a + b == b;
      assert [] + [t] + b == [t] + b;
    } else {
      assert (a + b)[1..] == a[1..] + b;
      assert a[0] in a;
      StableInsertParts(a[1..], b, t);
      assert [a[0]] + (a[1..] + [t] + b) == a + [t] + b;
    }
  }

  lemma {:induction false} StableInsertKeeps(q: seq<Timer>, t: Timer)
    ensures multiset(StableInsert(q, t)) == multiset(q) + multiset{t}
  {
    if q != [] && t.due >= q[0].due {
      StableInsertKeeps(q[1..], t);
      assert q == [q[0]] + q[1..];
    }
  }

  lemma {:induction false} StableInsertInOrder(q: seq<Timer>, t: Timer)
    requires Sorted(q)
    ensures Sorted(StableInsert(q, t))
  {
    if q != [] && t.due >= q[0].due {
      var s := StableInsert(q[1..], t);
      StableInsertInOrder(q[1..], t);
      StableInsertKeeps(q[1..], t);
      forall i | 0 <= i < |s|
        ensures q[0].due <= s[i].due
      {
        assert s[i] in multiset(s);
        if s[i] != t {
          var j :| 0 <= j < |q[1..]| && q[1..][j] == s[i];
          assert q[j + 1] == s[i];
        }
      }
    }
  }

  lemma StableInsertSorted(q: seq<Timer>, t: Timer)
    requires Sorted(q)
    ensures Sorted(StableInsert(q, t))
    ensures multiset(StableInsert(q, t)) == multiset(q) + multiset{t}
  {
    StableInsertKeeps(q, t);
    StableInsertInOrder(q, t);
  }

  /** How many timers of a sorted list are due no later than d. */
  ghost function Earlier(q: seq<Timer>, d: int): (k: nat)
    requires Sorted(q)
    ensures k <= |q|
    ensures forall i :: 0 <= i < k ==> q[i].due <= d
    ensures forall i :: k <= i < |q| ==> d < q[i].due
  {
    if q == [] || d < q[0].due then 0 else 1 + Earlier(q[1..], d)
  }

  /** q without the timers of node. */
  ghost function Without(q: seq<Timer>, node: Node): seq<Timer> {
    if q == [] then [] else if q[0].node == node then Without(q[1..], node) else [q[0]] + Without(q[1..], node)
  }

  lemma {:induction false} WithoutNone(q: seq<Timer>, node: Node)
    requires forall x :: x in q ==> x.node != node
    ensures Without(q, node) == q
  {
    if q != [] {
      WithoutNone(q[1..], node);
    }
  }

  lemma {:induction false} WithoutParts(a: seq<Timer>, t: Timer, b: seq<Timer>)
    requires forall x :: x in a + b ==> x.node != t.node
    ensures Without(a + [t] + b, t.node) == a + b
  {
    if a == [] {
      assert a + [t] + b == [t] + b && a + b == b;
      WithoutNone(b, t.node);
    } else {
      assert (a + [t] + b)[1..] == a[1..] + [t] + b;
      assert (a + b)[1..] == a[1..] + b;
      assert a[0] in a + b;
      WithoutParts(a[1..], t, b);
    }
  }

  lemma {:induction false} WithoutIs(q: seq<Timer>, node: Node)
    ensures forall x :: x in Without(q, node) ==> x in q && x.node != node
    ensures forall x :: x in q && x.node != node ==> x in Without(q, node)
  {
    if q != [] {
      WithoutIs(q[1..], node);
      assert q == [q[0]] + q[1..];
    }
  }

  lemma {:induction false} WithoutInOrder(q: seq<Timer>, node: Node)
    requires Sorted(q)
    ensures Sorted(Without(q, node))
  {
    if q != [] {
      var r := Without(q[1..], node);
      WithoutInOrder(q[1..], node);
      WithoutIs(q[1..], node);
      forall i | 0 <= i < |r|
        ensures q[0].due <= r[i].due
      {
        assert r[i] in r;
        var j :| 0 <= j < |q[1..]| && q[1..][j] == r[i];
        assert q[j + 1] == r[i];
      }
    }
  }

  lemma WithoutSorted(q: seq<Timer>, node: Node)
    requires Sorted(q)
    ensures Sorted(Without(q, node))
    ensures forall x :: x in Without(q, node) ==> x in q && x.node != node
    ensures forall x :: x in q && x.node != node ==> x in Without(q, node)
  {
    WithoutIs(q, node);
    WithoutInOrder(q, node);
  }

  lemma {:induction false} WithoutNear(q: seq<Timer>, node: Node, d: int)
    requires Near(q, d)
    ensures Near(Without(q, node), d)
  {
    if q != [] {
      assert -TWO_63 < q[0].due - d < TWO_63;
      forall i | 0 <= i < |q[1..]|
        ensures -TWO_63 < q[1..][i].due - d < TWO_63
      {
        assert q[1..][i] == q[i + 1];
      }
      WithoutNear(q[1..], node, d);
    }
  }

  lemma {:induction false} StableInsertNear(q: seq<Timer>, t: Timer, d: int)
    requires Near(q, d) && -TWO_63 < t.due - d < TWO_63
    ensures Near(StableInsert(q, t), d)
  {
    if q != [] && t.due >= q[0].due {
      assert forall i :: 0 <= i < |q[1..]| ==> q[1..][i] == q[i + 1];
      StableInsertNear(q[1..], t, d);
    }
  }

  // ------------------------------------------------------------ comparing words and comparing times

  /** Less than half the range apart, the signed difference of words is the difference of times. */
  lemma SignedDifference(a: int, b: int)
    ensures -TWO_63 <= a - b < TWO_63 <==> Signed64(WrapSub(Word(a), Word(b))) == a - b
  {
    WrapWord(a, b);
  }

  lemma WrapWord(a: int, b: int)
    ensures WrapSub(Word(a), Word(b)) == Word(a - b)
  {
    var qa, qb := a / TWO_64, b / TWO_64;
    ModShift(Word(a) - Word(b), qa - qb);
  }

  lemma ModShift(x: int, q: int)
    ensures (x + q * TWO_64) % TWO_64 == x % TWO_64
  {
  }

  /** Timers whose times all lie in a window of w milliseconds. */
  ghost predicate OrderKept(base: int, w: nat) {
    forall a, b :: base <= a < base + w && base <= b < base + w ==>
      (GoesLeft(InsertTimerValue, Word(a), Word(b)) <==> a < b)
  }

  /** Half the range of a word is the widest window in which the tree's comparison is right. */
  lemma WindowIsTight(base: int, w: nat)
    ensures OrderKept(base, w) <==> w <= TWO_63
  {
    if w <= TWO_63 {
      forall a, b | base <= a < base + w && base <= b < base + w
        ensures GoesLeft(InsertTimerValue, Word(a), Word(b)) <==> a < b
      {
        SignedDifference(a, b);
      }
    } else {
      WrapWord(base + TWO_63, base);
      assert GoesLeft(InsertTimerValue, Word(base + TWO_63), Word(base));
    }
  }

  lemma WrapAddWord(a: int, k: Key)
    ensures WrapAdd(Word(a), k) == Word(a + k)
  {
    ModShift(Word(a) + k, a / TWO_64);
  }

  // ------------------------------------------------------------ re-arming lazily

  const TIMER_LAZY_DELAY: int := 300
  const TWO_32: int := 0x1_0000_0000
  const TWO_31: int := 0x8000_0000

  /** The conversion of a long to int keeps its last 32 bits. */
  function Truncated(x: int): int {
    var w := x % TWO_32;
    if w < TWO_31 then w else w - TWO_32
  }

  /** An int stays what it is, and what is not one becomes the int that differs from it by a multiple of 2^32. */
  lemma TruncatedIs(x: int)
    ensures -0x8000_0000 <= Truncated(x) < 0x8000_0000
    ensures (Truncated(x) - x) % 0x1_0000_0000 == 0
    ensures -0x8000_0000 <= x < 0x8000_0000 ==> Truncated(x) == x
  {
  }

  /** abs on int; the least int, which has no opposite, stays what it is. */
  function AbsInt(x: int): int {
    if x >= 0 then x else Truncated(-x)
  }

  /** Whether an armed timer is left where it is when it should move by diff. */
  predicate IsLazy(diff: int) {
    AbsInt(Truncated(diff)) < TIMER_LAZY_DELAY
  }

  /** Moves by less than 300 ms pass for short, and those by 300 ms and more, up to 2^31, do not. */
  lemma LazyBelow300(diff: int)
    ensures -300 < diff < 300 ==> IsLazy(diff)
    ensures 300 <= diff < 0x8000_0000 || -0x8000_0000 < diff <= -300 ==> !IsLazy(diff)
  {
    TruncatedIs(diff);
  }

  /** The deadline of a timer armed for cur once d has been asked for. */
  function Rearmed(cur: int, d: int): int {
    if IsLazy(d - cur) then cur else d
  }

  /** Far moves that look short, or like the least int, in their last 32 bits. */
  predicate LooksNear(diff: int) {
    && (diff <= -TIMER_LAZY_DELAY || TIMER_LAZY_DELAY <= diff)
    && var w := diff % TWO_32; w < TIMER_LAZY_DELAY || TWO_32 - TIMER_LAZY_DELAY < w || w == TWO_31
  }

  /** A re-armed timer is off by less than the lazy delay, but for the moves that only look short. */
  lemma RearmedWithinDelay(cur: int, d: int)
    ensures -300 < Rearmed(cur, d) - d < 300 <==> !LooksNear(d - cur)
  {
  }

  /** Moving a timer by 2^32 ms is lost altogether. */
  lemma FarMoveIsLost(cur: int)
    ensures Rearmed(cur, cur + TWO_32) == cur
  {
  }

  lemma NoFarMove(diff: int)
    requires -TWO_31 < diff < TWO_31
    ensures !LooksNear(diff)
  {
  }

  /** The deadline after a series of requests. */
  function RearmedAll(cur: int, ds: seq<int>): int {
    if ds == [] then cur else Rearmed(RearmedAll(cur, ds[..|ds| - 1]), ds[|ds| - 1])
  }

  /** Successive requests, the first one after cur, lie less than step apart. */
  ghost predicate StepsBelow(cur: int, ds: seq<int>, step: int) {
    ds == [] ||
    var last := |ds| - 1;
    && StepsBelow(cur, ds[..last], step)
    && -step < ds[last] - (if last == 0 then cur else ds[last - 1]) < step
  }

  /** However often a timer is re-armed by moves shorter than step, it is off by less than the lazy delay. */
  ghost predicate NoDrift(step: int) {
    forall cur, ds :: ds != [] && StepsBelow(cur, ds, step) ==>
      -300 < RearmedAll(cur, ds) - ds[|ds| - 1] < 300
  }

  lemma {:induction false} RearmedAllWithinDelay(cur: int, ds: seq<int>, step: int)
    requires ds != [] && StepsBelow(cur, ds, step) && step <= 0x8000_0000 - 299
    ensures -300 < RearmedAll(cur, ds) - ds[|ds| - 1] < 300
  {
    var last := |ds| - 1;
    var before := RearmedAll(cur, ds[..last]);
    if last > 0 {
      RearmedAllWithinDelay(cur, ds[..last], step);
    }
    NoFarMove(ds[last] - before);
    RearmedWithinDelay(before, ds[last]);
  }

  /** The error never adds up exactly when a move is shorter than 2^31 - 299 ms. With 2^31 the promise is broken: a
      timer for 0 that is asked to move to 299, and stays, and then to 2^31, stays again. */
  lemma NoDriftIffShortMoves(step: int)
    ensures NoDrift(step) <==> step <= 0x8000_0000 - 299
  {
    if step <= 0x8000_0000 - 299 {
      forall cur, ds | ds != [] && StepsBelow(cur, ds, step)
        ensures -300 < RearmedAll(cur, ds) - ds[|ds| - 1] < 300
      {
        RearmedAllWithinDelay(cur, ds, step);
      }
    } else {
      var a, ds := [299], [299, TWO_31];
      assert a[..0] == [] && ds[..1] == a;
      assert StepsBelow(0, [], step) && StepsBelow(0, a, step) && StepsBelow(0, ds, step);
      assert RearmedAll(0, []) == 0 && RearmedAll(0, a) == 0;
      assert RearmedAll(0, ds) == 0;
    }
  }
}
