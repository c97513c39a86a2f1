/**
 The scheduler of one thread as a machine over steps. A coroutine is known by the timer node of
 its one event; the pending timers are a plain list in order of deadline. A log is legal when
 each of its steps was possible where it was taken; what legal logs have in common holds in every
 run of the program.
 */
module Schedule {
  import opened RbNode
  import opened TimerList

  datatype Wait = Asleep | InConnect | InRecv

  datatype Status =
    | Running
    | Parked(wait: Wait, due: int)
    | Stuck
    | Finished

  datatype Pass = NoPass | PassAt(at: int)

  datatype Step =
    | Start(id: Node)
    | Park(id: Node, wait: Wait, at: int, due: int)
    | Fire(id: Node)
    | Deliver(id: Node, failed: bool)
    | Finish(id: Node)
    | PassStart(at: int)
    | PassEnd

  datatype State = State(clock: int, queue: seq<Timer>, status: map<Node, Status>, pass: Pass) {
    predicate Is(id: Node, s: Status) {
      id in status && status[id] == s
    }

    predicate IsParked(id: Node) {
      id in status && status[id].Parked?
    }
  }

  function Initial(clock: int): State {
    State(clock, [], map[], NoPass)
  }

  /** Whether a step can be taken. The program decides on the steps of the first group, the environment on the others. */
  predicate Possible(s: State, a: Step) {
    match a
    case Start(id) => id !in s.status
    case Park(id, _, at, due) => s.Is(id, Running) && s.clock <= at <= due
    case Finish(id) => s.Is(id, Running)
    case Fire(id) => s.pass.PassAt? && s.queue != [] && s.queue[0].node == id && s.queue[0].due <= s.pass.at
    case PassEnd => s.pass.PassAt? && (s.queue == [] || s.pass.at < s.queue[0].due)
    case PassStart(at) => s.pass.NoPass? && s.clock <= at
    case Deliver(id, failed) =>
      s.IsParked(id) && !s.status[id].wait.Asleep? && (failed ==> s.status[id].wait.InConnect?) && s.pass.NoPass?
  }

  ghost function Next(s: State, a: Step): State {
    match a
    case Start(id) => s.(status := s.status[id := Running])
    case Park(id, wait, at, due) =>
      s.(clock := at, queue := StableInsert(s.queue, Timer(id, due)), status := s.status[id := Parked(wait, due)])
    case Finish(id) => s.(status := s.status[id := Finished])
    case Fire(id) => s.(queue := Without(s.queue, id), status := s.status[id := Running])
    case PassEnd => s.(pass := NoPass)
    case PassStart(at) => s.(clock := at, pass := PassAt(at))
    case Deliver(id, failed) =>
      s.(queue := Without(s.queue, id), status := s.status[id := if failed then Stuck else Running])
  }

  ghost function Run(from: State, log: seq<Step>): State {
    if log == [] then from else Next(Run(from, log[..|log| - 1]), log[|log| - 1])
  }

  ghost predicate Legal(from: State, log: seq<Step>) {
    log == [] || (Legal(from, log[..|log| - 1]) && Possible(Run(from, log[..|log| - 1]), log[|log| - 1]))
  }

  lemma Extended(from: State, log: seq<Step>, a: Step)
    requires Legal(from, log) && Possible(Run(from, log), a)
    ensures Legal(from, log + [a]) && Run(from, log + [a]) == Next(Run(from, log), a)
  {
    assert (log + [a])[..|log|] == log;
  }

  // ------------------------------------------------------------ what every state has in common

  /** No coroutine has two timers. */
  ghost predicate OneEach(q: seq<Timer>) {
    forall i, j :: 0 <= i < j < |q| ==> q[i].node != q[j].node
  }

  /** Exactly the parked coroutines have a pending timer, and just one. */
  ghost predicate Coherent(s: State) {
    && Sorted(s.queue) && OneEach(s.queue)
    && (forall t :: t in s.queue ==> s.IsParked(t.node) && s.status[t.node].due == t.due)
    && (forall id :: id in s.status && s.status[id].Parked? ==> Timer(id, s.status[id].due) in s.queue)
  }

  lemma StableInsertSplits(q: seq<Timer>, t: Timer) returns (a: seq<Timer>, b: seq<Timer>)
    requires Sorted(q)
    ensures q == a + b && StableInsert(q, t) == a + [t] + b
    ensures forall x :: x in a ==> x.due <= t.due
    ensures forall x :: x in b ==> t.due < x.due
  {
    var k := Earlier(q, t.due);
    a, b := q[..k], q[k..];
    assert q == a + b;
    StableInsertParts(a, b, t);
  }

  lemma {:induction false} WithoutSplits(q: seq<Timer>, t: Timer) returns (a: seq<Timer>, b: seq<Timer>)
    requires OneEach(q) && t in q
    ensures q == a + [t] + b && Without(q, t.node) == a + b
  {
    assert q == [q[0]] + q[1..];
    if q[0] == t {
      a, b := [], q[1..];
      WithoutNone(b, t.node);
    } else {
      assert t in q[1..];
      a, b := WithoutSplits(q[1..], t);
      assert q[0].node != t.node by {
        var i :| 0 <= i < |q[1..]| && q[1..][i] == t;
        assert q[i + 1] == t;
      }
      a := [q[0]] + a;
    }
  }

  lemma InsertKeepsOneEach(a: seq<Timer>, t: Timer, b: seq<Timer>)
    requires OneEach(a + b) && forall x :: x in a + b ==> x.node != t.node
    ensures OneEach(a + [t] + b)
  {
    var q, r := a + b, a + [t] + b;
    forall i, j | 0 <= i < j < |r|
      ensures r[i].node != r[j].node
    {
      var i', j' := if i < |a| then i else i - 1, if j < |a| then j else j - 1;
      assert i != |a| ==> r[i] == q[i'] && q[i'] in q;
      assert j != |a| ==> r[j] == q[j'] && q[j'] in q;
    }
  }

  lemma RemoveKeepsOneEach(a: seq<Timer>, t: Timer, b: seq<Timer>)
    requires OneEach(a + [t] + b)
    ensures OneEach(a + b) && forall x :: x in a + b ==> x.node != t.node
  {
    var q, r := a + [t] + b, a + b;
    assert forall i :: 0 <= i < |r| ==> r[i] == q[if i < |a| then i else i + 1];
    assert q[|a|] == t;
  }

  lemma NotQueued(s: State, id: Node)
    requires Coherent(s) && s.Is(id, Running)
    ensures forall x :: x in s.queue ==> x.node != id
  {
  }

  lemma ParkCoherent(s: State, id: Node, wait: Wait, at: int, due: int)
    requires Coherent(s) && Possible(s, Park(id, wait, at, due))
    ensures Coherent(Next(s, Park(id, wait, at, due)))
  {
    hide Sorted;
    hide OneEach;
    hide StableInsert;
    var t, s' := Timer(id, due), Next(s, Park(id, wait, at, due));
    var a, b := StableInsertSplits(s.queue, t);
    StableInsertSorted(s.queue, t);
    NotQueued(s, id);
    InsertKeepsOneEach(a, t, b);
    forall x | x in s'.queue
      ensures s'.IsParked(x.node) && s'.status[x.node].due == x.due
    {
      assert x in a + b || x == t;
    }
    forall i | i in s'.status && s'.status[i].Parked?
      ensures Timer(i, s'.status[i].due) in s'.queue
    {
      assert i != id ==> Timer(i, s.status[i].due) in a + b;
    }
  }

  lemma TakeCoherent(s: State, t: Timer, st: Status)
    requires Coherent(s) && t in s.queue && !st.Parked?
    ensures Coherent(s.(queue := Without(s.queue, t.node), status := s.status[t.node := st]))
  {
    var a, b := WithoutSplits(s.queue, t);
    WithoutSorted(s.queue, t.node);
    RemoveKeepsOneEach(a, t, b);
    assert forall x :: x in a + b ==> x in s.queue;
    assert forall x :: x in s.queue ==> x in a + b || x == t;
  }

  lemma NextCoherent(s: State, x: Step)
    requires Coherent(s) && Possible(s, x)
    ensures Coherent(Next(s, x))
  {
    match x
    case Park(id, wait, at, due) => ParkCoherent(s, id, wait, at, due);
    case Fire(id) => TakeCoherent(s, s.queue[0], Running);
    case Deliver(id, failed) => TakeCoherent(s, Timer(id, s.status[id].due), if failed then Stuck else Running);
    case _ =>
  }

  /** In every run, at every moment. */
  lemma {:induction false} RunCoherent(clock: int, log: seq<Step>)
    requires Legal(Initial(clock), log)
    ensures Coherent(Run(Initial(clock), log))
  {
    if log != [] {
      RunCoherent(clock, log[..|log| - 1]);
      NextCoherent(Run(Initial(clock), log[..|log| - 1]), log[|log| - 1]);
    }
  }
}
