/** What holds of every run of the scheduler, told from the log of its steps. */
module Runs {
  import opened RbNode
  import opened TimerList
  import opened Schedule

  /** The state after the first n steps. */
  ghost function After(clock: int, log: seq<Step>, n: nat): State
    requires n <= |log|
  {
    Run(Initial(clock), log[..n])
  }

  lemma {:induction false} LegalPrefix(from: State, log: seq<Step>, n: nat)
    requires Legal(from, log) && n <= |log|
    ensures Legal(from, log[..n])
    decreases |log|
  {
    if n < |log| {
      LegalPrefix(from, log[..|log| - 1], n);
      assert log[..|log| - 1][..n] == log[..n];
    } else {
      assert log[..n] == log;
    }
  }

  /** The n-th step of a legal log was possible and led to the next state. */
  lemma StepAt(clock: int, log: seq<Step>, n: nat)
    requires Legal(Initial(clock), log) && n < |log|
    ensures Possible(After(clock, log, n), log[n])
    ensures After(clock, log, n + 1) == Next(After(clock, log, n), log[n])
    ensures Coherent(After(clock, log, n))
  {
    LegalPrefix(Initial(clock), log, n + 1);
    LegalPrefix(Initial(clock), log, n);
    assert log[..n + 1][..n] == log[..n];
    RunCoherent(clock, log[..n]);
  }

  // ------------------------------------------------------------ the history of one coroutine

  predicate About(a: Step, id: Node) {
    match a
    case PassStart(_) => false
    case PassEnd => false
    case _ => a.id == id
  }

  /** The last step about id, -1 if there is none. */
  ghost function LastAbout(log: seq<Step>, id: Node): (i: int)
    ensures -1 <= i < |log|
    ensures 0 <= i ==> About(log[i], id)
    ensures forall j :: i < j < |log| ==> !About(log[j], id)
  {
    if log == [] then -1
    else if About(log[|log| - 1], id) then |log| - 1
    else LastAbout(log[..|log| - 1], id)
  }

  /** A coroutine waits for what its last step asked for. */
  lemma {:induction false} ParkedSince(clock: int, log: seq<Step>, id: Node)
    requires Legal(Initial(clock), log) && Run(Initial(clock), log).IsParked(id)
    ensures var i, st := LastAbout(log, id), Run(Initial(clock), log).status[id];
      0 <= i && log[i].Park? && log[i].wait == st.wait && log[i].due == st.due
  {
    var n := |log| - 1;
    if log != [] && !About(log[n], id) {
      ParkedSince(clock, log[..n], id);
    }
  }

  /** Nobody but the coroutine itself changes what it waits for. */
  lemma {:induction false} StaysParked(clock: int, log: seq<Step>, i: nat, j: nat)
    requires Legal(Initial(clock), log) && i < j <= |log| && log[i].Park?
    requires forall k :: i < k < j ==> !About(log[k], log[i].id)
    ensures After(clock, log, j).Is(log[i].id, Parked(log[i].wait, log[i].due))
    decreases j
  {
    StepAt(clock, log, j - 1);
    if j > i + 1 {
      StaysParked(clock, log, i, j - 1);
    }
  }

  // ------------------------------------------------------------ passes

  /** Steps p to e are one pass. */
  ghost predicate OnePass(log: seq<Step>, p: nat, e: int) {
    p < e < |log| && log[p].PassStart? && log[e].PassEnd? && forall k :: p < k < e ==> !log[k].PassStart? && !log[k].PassEnd?
  }

  /** Where the pass that is on after n steps began. */
  lemma {:induction false} PassBegan(clock: int, log: seq<Step>, n: nat) returns (p: nat)
    requires Legal(Initial(clock), log) && n <= |log| && After(clock, log, n).pass.PassAt?
    ensures p < n && log[p] == PassStart(After(clock, log, n).pass.at)
    ensures forall k :: p < k < n ==> !log[k].PassStart? && !log[k].PassEnd?
    decreases n
  {
    StepAt(clock, log, n - 1);
    if log[n - 1].PassStart? {
      p := n - 1;
    } else {
      p := PassBegan(clock, log, n - 1);
    }
  }

  /** No coroutine is woken by the clock before the time it asked for: whatever Fire does at j,
      a Park at i asked for, and the pass that began at p had reached its deadline. */
  lemma NoEarlyWake(clock: int, log: seq<Step>, j: nat) returns (i: nat, p: nat)
    requires Legal(Initial(clock), log) && j < |log| && log[j].Fire?
    ensures i < j && log[i].Park? && log[i].id == log[j].id
    ensures forall k :: i < k < j ==> !About(log[k], log[j].id)
    ensures p < j && log[p].PassStart? && log[i].at <= log[i].due <= log[p].at
    ensures forall k :: p < k < j ==> !log[k].PassStart? && !log[k].PassEnd?
  {
    hide Legal;
    hide Run;
    hide Next;
    hide Coherent;
    StepAt(clock, log, j);
    LegalPrefix(Initial(clock), log, j);
    ParkedSince(clock, log[..j], log[j].id);
    i := LastAbout(log[..j], log[j].id);
    p := PassBegan(clock, log, j);
    StepAt(clock, log, i);
  }

  /** Step k ends the wait asked for at step i: the clock does, or the network if it is no sleep, and the coroutine runs again,
      but for one whose connection has failed. */
  ghost predicate EndsWait(clock: int, log: seq<Step>, i: nat, k: nat)
    requires i < |log| && k < |log| && log[i].Park?
  {
    var id, next := log[i].id, After(clock, log, k + 1);
    && (log[k].Fire? || (log[k].Deliver? && log[i].wait != Asleep))
    && (log[k].Deliver? && log[k].failed ==> log[i].wait == InConnect && next.Is(id, Stuck))
    && (next.Is(id, Running) <==> !(log[k].Deliver? && log[k].failed))
  }

  /** A coroutine whose connection failed is never heard of again. */
  lemma {:induction false} FailedStaysStuck(clock: int, log: seq<Step>, k: nat, n: nat)
    requires Legal(Initial(clock), log) && k < n <= |log| && log[k].Deliver? && log[k].failed
    ensures After(clock, log, n).Is(log[k].id, Stuck)
    ensures forall m :: k < m < n ==> !About(log[m], log[k].id)
    decreases n
  {
    hide Legal;
    hide Run;
    hide Coherent;
    StepAt(clock, log, n - 1);
    if n > k + 1 {
      FailedStaysStuck(clock, log, k, n - 1);
      StuckIsLeftAlone(After(clock, log, n - 1), log[n - 1], log[k].id);
    }
  }

  lemma StuckIsLeftAlone(s: State, a: Step, id: Node)
    requires Coherent(s) && Possible(s, a) && s.Is(id, Stuck)
    ensures !About(a, id) && Next(s, a).Is(id, Stuck)
  {
    if a.Fire? {
      assert s.queue[0] in s.queue;
    }
  }

  /** Every wait is over when the first pass that reaches its deadline ends: k is the step that ends it. */
  lemma NoLateWake(clock: int, log: seq<Step>, i: nat, p: nat, e: nat) returns (k: nat)
    requires Legal(Initial(clock), log) && i < e < |log| && p < e
    requires log[i].Park? && log[p].PassStart? && log[e].PassEnd? && log[i].due <= log[p].at
    requires forall n :: p < n < e ==> !log[n].PassStart? && !log[n].PassEnd?
    ensures i < k < e && About(log[k], log[i].id) && (forall n :: i < n < k ==> !About(log[n], log[i].id))
    ensures EndsWait(clock, log, i, k)
  {
    StepAt(clock, log, e);
    var id := log[i].id;
    if forall n :: i < n < e ==> !About(log[n], id) {
      StaysParked(clock, log, i, e);
      var p' := PassBegan(clock, log, e);
    }
    k := FirstAbout(log, i, e, id);
    StaysParked(clock, log, i, k);
    StepAt(clock, log, k);
  }

  lemma {:induction false} FirstAbout(log: seq<Step>, i: nat, e: nat, id: Node) returns (k: nat)
    requires i < e <= |log| && exists n :: i < n < e && About(log[n], id)
    ensures i < k < e && About(log[k], id) && forall n :: i < n < k ==> !About(log[n], id)
    decreases e - i
  {
    if About(log[i + 1], id) {
      k := i + 1;
    } else {
      k := FirstAbout(log, i + 1, e, id);
    }
  }

  // ------------------------------------------------------------ nothing is lost, nothing happens twice

  ghost function Parks(log: seq<Step>): nat {
    if log == [] then 0 else Parks(log[..|log| - 1]) + if log[|log| - 1].Park? then 1 else 0
  }

  ghost function Fires(log: seq<Step>): nat {
    if log == [] then 0 else Fires(log[..|log| - 1]) + if log[|log| - 1].Fire? then 1 else 0
  }

  ghost function Delivers(log: seq<Step>): nat {
    if log == [] then 0 else Delivers(log[..|log| - 1]) + if log[|log| - 1].Deliver? then 1 else 0
  }

  /** Every wait begun has been ended by the clock, ended by the network, or is still pending. */
  lemma {:induction false} WaitsConserved(clock: int, log: seq<Step>)
    requires Legal(Initial(clock), log)
    ensures Parks(log) == Fires(log) + Delivers(log) + |Run(Initial(clock), log).queue|
  {
    if log != [] {
      var n := |log| - 1;
      var s := Run(Initial(clock), log[..n]);
      WaitsConserved(clock, log[..n]);
      RunCoherent(clock, log[..n]);
      match log[n]
      case Park(id, _, _, due) =>
        var a, b := StableInsertSplits(s.queue, Timer(id, due));
      case Fire(id) =>
        var a, b := WithoutSplits(s.queue, s.queue[0]);
      case Deliver(id, _) =>
        var a, b := WithoutSplits(s.queue, Timer(id, s.status[id].due));
      case _ =>
    }
  }

  // ------------------------------------------------------------ the order of firing

  /** The timer of a comes before that of b: an earlier deadline, or the same one asked for earlier. */
  ghost predicate Precedes(log: seq<Step>, a: Timer, b: Timer) {
    a.due < b.due || (a.due == b.due && LastAbout(log, a.node) < LastAbout(log, b.node))
  }

  ghost predicate InOrderOfAsking(log: seq<Step>, q: seq<Timer>) {
    forall i, j :: 0 <= i < j < |q| ==> Precedes(log, q[i], q[j])
  }

  /** The pending timers are always in order of deadline, and of asking for those with the same deadline. */
  lemma {:induction false} QueueIsStable(clock: int, log: seq<Step>)
    requires Legal(Initial(clock), log)
    ensures InOrderOfAsking(log, Run(Initial(clock), log).queue)
  {
    if log != [] {
      var n := |log| - 1;
      var s := Run(Initial(clock), log[..n]);
      QueueIsStable(clock, log[..n]);
      RunCoherent(clock, log[..n]);
      StepKeepsOrder(s, log);
    }
  }

  lemma StepKeepsOrder(s: State, log: seq<Step>)
    requires log != [] && Coherent(s) && Possible(s, log[|log| - 1])
    requires InOrderOfAsking(log[..|log| - 1], s.queue)
    ensures InOrderOfAsking(log, Next(s, log[|log| - 1]).queue)
  {
    var n := |log| - 1;
    match log[n]
    case Park(id, _, _, due) =>
      var a, b := StableInsertSplits(s.queue, Timer(id, due));
      assert forall x :: x in a + b ==> x in s.queue;
      InsertKeepsOrder(log, a, Timer(id, due), b);
    case Fire(id) =>
      var a, b := WithoutSplits(s.queue, s.queue[0]);
      RemoveKeepsOneEach(a, s.queue[0], b);
      RemoveKeepsOrder(log, a, s.queue[0], b);
    case Deliver(id, _) =>
      var t := Timer(id, s.status[id].due);
      var a, b := WithoutSplits(s.queue, t);
      RemoveKeepsOneEach(a, t, b);
      RemoveKeepsOrder(log, a, t, b);
    case _ =>
  }

  lemma InsertKeepsOrder(log: seq<Step>, a: seq<Timer>, t: Timer, b: seq<Timer>)
    requires log != [] && InOrderOfAsking(log[..|log| - 1], a + b) && About(log[|log| - 1], t.node)
    requires forall x :: x in a + b ==> x.node != t.node
    requires forall x :: x in a ==> x.due <= t.due
    requires forall x :: x in b ==> t.due < x.due
    ensures InOrderOfAsking(log, a + [t] + b)
  {
    var q, r := a + b, a + [t] + b;
    forall i, j | 0 <= i < j < |r|
      ensures Precedes(log, r[i], r[j])
    {
      var i', j' := if i < |a| then i else i - 1, if j < |a| then j else j - 1;
      if i == |a| {
        assert r[j] == b[j - |a| - 1] && r[j] in b;
      } else if j == |a| {
        assert r[i] in a && r[i] in q;
      } else {
        assert r[i] == q[i'] && r[j] == q[j'] && Precedes(log[..|log| - 1], q[i'], q[j']);
      }
    }
  }

  lemma RemoveKeepsOrder(log: seq<Step>, a: seq<Timer>, t: Timer, b: seq<Timer>)
    requires log != [] && InOrderOfAsking(log[..|log| - 1], a + [t] + b) && About(log[|log| - 1], t.node)
    requires forall x :: x in a + b ==> x.node != t.node
    ensures InOrderOfAsking(log, a + b)
  {
    var q, r := a + [t] + b, a + b;
    forall i, j | 0 <= i < j < |r|
      ensures Precedes(log, r[i], r[j])
    {
      var i', j' := if i < |a| then i else i + 1, if j < |a| then j else j + 1;
      assert r[i] == q[i'] && r[j] == q[j'] && Precedes(log[..|log| - 1], q[i'], q[j']);
      assert r[i] in r && r[j] in r;
    }
  }

  lemma {:induction false} PassClock(clock: int, log: seq<Step>)
    requires Legal(Initial(clock), log)
    ensures var s := Run(Initial(clock), log); s.pass.PassAt? ==> s.pass.at <= s.clock
  {
    if log != [] {
      PassClock(clock, log[..|log| - 1]);
    }
  }

  /** The step that asked for what the Fire at j delivers. */
  ghost function Asked(log: seq<Step>, j: nat): int
    requires j < |log| && log[j].Fire?
  {
    LastAbout(log[..j], log[j].id)
  }

  lemma AskedFacts(clock: int, log: seq<Step>, j: nat)
    requires Legal(Initial(clock), log) && j < |log| && log[j].Fire?
    ensures 0 <= Asked(log, j) < j && log[Asked(log, j)].Park?
    ensures var s := After(clock, log, j);
      s.queue != [] && s.queue[0] == Timer(log[j].id, log[Asked(log, j)].due) && log[Asked(log, j)].due <= s.clock
  {
    StepAt(clock, log, j);
    LegalPrefix(Initial(clock), log, j);
    ParkedSince(clock, log[..j], log[j].id);
    PassClock(clock, log[..j]);
    var s := After(clock, log, j);
    assert s.queue[0] in s.queue;
  }

  /** t, asked for at step i, comes after the wait asked for at step h with deadline d. */
  predicate Later(d: int, h: int, t: Timer, i: int) {
    d < t.due || (d == t.due && h < i)
  }

  lemma LastAboutStep(log: seq<Step>, n: nat, id: Node)
    requires n < |log|
    ensures LastAbout(log[..n + 1], id) == if About(log[n], id) then n else LastAbout(log[..n], id)
  {
    assert log[..n + 1][..n] == log[..n];
  }

  lemma {:induction false} ClockRuns(clock: int, log: seq<Step>, j: nat, n: nat)
    requires Legal(Initial(clock), log) && j <= n <= |log|
    ensures After(clock, log, j).clock <= After(clock, log, n).clock
    decreases n
  {
    if j < n {
      StepAt(clock, log, n - 1);
      ClockRuns(clock, log, j, n - 1);
    }
  }

  /** Once a wait has been fired, all that is pending comes after it, then and ever after. */
  lemma {:induction false} FiredBeforeRest(clock: int, log: seq<Step>, j: nat, n: nat)
    requires Legal(Initial(clock), log) && j < n <= |log| && log[j].Fire?
    ensures var h := Asked(log, j);
      && 0 <= h < j && log[h].Park?
      && forall t :: t in After(clock, log, n).queue ==> Later(log[h].due, h, t, LastAbout(log[..n], t.node))
    decreases n
  {
    AskedFacts(clock, log, j);
    var h := Asked(log, j);
    ClockRuns(clock, log, j, n - 1);
    if n > j + 1 {
      FiredBeforeRest(clock, log, j, n - 1);
    }
    forall t | t in After(clock, log, n).queue
      ensures Later(log[h].due, h, t, LastAbout(log[..n], t.node))
    {
      RestAt(clock, log, n - 1, t);
      if n == j + 1 {
        RestAfterFire(clock, log, j, t);
      }
    }
  }

  lemma RestAt(clock: int, log: seq<Step>, n: nat, t: Timer)
    requires Legal(Initial(clock), log) && n < |log| && t in After(clock, log, n + 1).queue
    ensures (t in After(clock, log, n).queue && LastAbout(log[..n + 1], t.node) == LastAbout(log[..n], t.node))
      || (After(clock, log, n).clock <= t.due && LastAbout(log[..n + 1], t.node) == n && log[n].Park?)
  {
    StepAt(clock, log, n);
    LastAboutStep(log, n, t.node);
    RestStep(After(clock, log, n), log[n], t);
  }

  lemma RestAfterFire(clock: int, log: seq<Step>, j: nat, t: Timer)
    requires Legal(Initial(clock), log) && j < |log| && log[j].Fire? && t in After(clock, log, j + 1).queue
    ensures var h := Asked(log, j); 0 <= h && log[h].Park? && Later(log[h].due, h, t, LastAbout(log[..j], t.node))
  {
    AskedFacts(clock, log, j);
    StepAt(clock, log, j);
    var s := After(clock, log, j);
    RestStep(s, log[j], t);
    LegalPrefix(Initial(clock), log, j);
    QueueIsStable(clock, log[..j]);
    var i :| 0 <= i < |s.queue| && s.queue[i] == t;
    assert Precedes(log[..j], s.queue[0], s.queue[i]);
  }

  /** A pending timer was pending before the step, or the step is what asked for it. */
  lemma RestStep(s: State, a: Step, t: Timer)
    requires Coherent(s) && Possible(s, a) && t in Next(s, a).queue
    ensures (t in s.queue && !About(a, t.node)) || (a.Park? && t == Timer(a.id, a.due))
    ensures a.Fire? ==> s.queue[0] != t
  {
    NextCoherent(s, a);
    match a
    case Park(id, _, _, due) =>
      StableInsertSorted(s.queue, Timer(id, due));
      assert t in multiset(StableInsert(s.queue, Timer(id, due)));
    case Fire(id) => WithoutSorted(s.queue, id);
    case Deliver(id, _) => WithoutSorted(s.queue, id);
    case _ =>
  }

  /** Waits are fired in order of deadline, those with the same deadline in the order they were asked for. */
  lemma FiresInOrder(clock: int, log: seq<Step>, j: nat, k: nat)
    requires Legal(Initial(clock), log) && j < k < |log| && log[j].Fire? && log[k].Fire?
    ensures var a, b := Asked(log, j), Asked(log, k);
      && 0 <= a < j && 0 <= b < k && log[a].Park? && log[b].Park?
      && (log[a].due < log[b].due || (log[a].due == log[b].due && a < b))
  {
    AskedFacts(clock, log, j);
    AskedFacts(clock, log, k);
    FiredBeforeRest(clock, log, j, k);
    var s := After(clock, log, k);
    assert s.queue[0] in s.queue;
  }

  // ------------------------------------------------------------ one pass

  /** Every wait asked for at steps p + 1 to n is for later than t. */
  ghost predicate AskedLater(log: seq<Step>, p: nat, n: nat, t: int) {
    forall i :: p < i < n && i < |log| && log[i].Park? ==> t < log[i].due
  }

  lemma {:induction false} PassGoesOn(clock: int, log: seq<Step>, p: nat, n: nat)
    requires Legal(Initial(clock), log) && p < n <= |log| && log[p].PassStart?
    requires forall k :: p < k < n ==> !log[k].PassStart? && !log[k].PassEnd?
    ensures After(clock, log, n).pass == PassAt(log[p].at)
    decreases n
  {
    StepAt(clock, log, n - 1);
    if n > p + 1 {
      PassGoesOn(clock, log, p, n - 1);
    }
  }

  lemma SortedAt(clock: int, log: seq<Step>, n: nat)
    requires Legal(Initial(clock), log) && n <= |log|
    ensures Sorted(After(clock, log, n).queue)
  {
    LegalPrefix(Initial(clock), log, n);
    RunCoherent(clock, log[..n]);
  }

  /** How many timers are due at time t after n steps. */
  ghost function DueAt(clock: int, log: seq<Step>, n: nat, t: int): nat
    requires Legal(Initial(clock), log) && n <= |log|
  {
    SortedAt(clock, log, n);
    Earlier(After(clock, log, n).queue, t)
  }

  /** How many of the waits asked for were due at time t already. */
  ghost function AskedDue(log: seq<Step>, t: int): nat {
    if log == [] then 0
    else
      var a := log[|log| - 1];
      AskedDue(log[..|log| - 1], t) + if a.Park? && a.due <= t then 1 else 0
  }

  /** While a pass for time t is on, each firing leaves one due timer less, and each wait for no later than t one more. */
  lemma {:induction false} DueTimersCount(clock: int, log: seq<Step>, m: nat, n: nat, t: int)
    requires Legal(Initial(clock), log) && m <= n <= |log| && After(clock, log, m).pass == PassAt(t)
    requires forall k :: m <= k < n ==> !log[k].PassStart? && !log[k].PassEnd?
    ensures After(clock, log, n).pass == PassAt(t)
    ensures Fires(log[..n]) - Fires(log[..m]) + DueAt(clock, log, n, t)
      == DueAt(clock, log, m, t) + AskedDue(log[..n], t) - AskedDue(log[..m], t)
    decreases n
  {
    if m < n {
      DueTimersCount(clock, log, m, n - 1, t);
      NextDue(clock, log, n - 1, t);
    }
  }

  lemma NextDue(clock: int, log: seq<Step>, n: nat, t: int)
    requires Legal(Initial(clock), log) && n < |log| && After(clock, log, n).pass == PassAt(t)
    requires !log[n].PassStart? && !log[n].PassEnd?
    ensures After(clock, log, n + 1).pass == PassAt(t)
    ensures Fires(log[..n + 1]) - Fires(log[..n]) + DueAt(clock, log, n + 1, t)
      == DueAt(clock, log, n, t) + AskedDue(log[..n + 1], t) - AskedDue(log[..n], t)
  {
    StepAt(clock, log, n);
    FiresStep(log, n);
    AskedDueStep(log, n, t);
    EarlierStep(After(clock, log, n), log[n], t);
  }

  /** The same from the step p that begins the pass. */
  lemma PassCounts(clock: int, log: seq<Step>, p: nat, n: nat)
    requires Legal(Initial(clock), log) && p < n <= |log| && log[p].PassStart?
    requires forall k :: p < k < n ==> !log[k].PassStart? && !log[k].PassEnd?
    ensures var t := log[p].at;
      Fires(log[..n]) - Fires(log[..p]) + DueAt(clock, log, n, t)
      == DueAt(clock, log, p, t) + AskedDue(log[..n], t) - AskedDue(log[..p], t)
  {
    StepAt(clock, log, p);
    FiresStep(log, p);
    AskedDueStep(log, p, log[p].at);
    DueTimersCount(clock, log, p + 1, n, log[p].at);
  }

  /** When the handlers ask for later times only, each firing leaves one due timer less. */
  lemma DueTimersFall(clock: int, log: seq<Step>, p: nat, n: nat)
    requires Legal(Initial(clock), log) && p < n <= |log| && log[p].PassStart?
    requires forall k :: p < k < n ==> !log[k].PassStart? && !log[k].PassEnd?
    requires AskedLater(log, p, n, log[p].at)
    ensures Fires(log[..n]) - Fires(log[..p]) == DueAt(clock, log, p, log[p].at) - DueAt(clock, log, n, log[p].at)
  {
    PassCounts(clock, log, p, n);
    NoneAskedDue(log, p, n, log[p].at);
  }

  lemma AskedDueStep(log: seq<Step>, n: nat, t: int)
    requires n < |log|
    ensures AskedDue(log[..n + 1], t) == AskedDue(log[..n], t) + if log[n].Park? && log[n].due <= t then 1 else 0
  {
    assert log[..n + 1][..n] == log[..n];
  }

  lemma {:induction false} NoneAskedDue(log: seq<Step>, p: nat, n: nat, t: int)
    requires p < n <= |log| && !log[p].Park?
    ensures AskedDue(log[..n], t) >= AskedDue(log[..p], t)
    ensures AskedDue(log[..n], t) == AskedDue(log[..p], t) <==> AskedLater(log, p, n, t)
    decreases n
  {
    AskedDueStep(log, n - 1, t);
    if n > p + 1 {
      NoneAskedDue(log, p, n - 1, t);
    }
  }

  /** How many timers of q are due at time t. */
  ghost function Due(q: seq<Timer>, t: int): nat {
    if Sorted(q) then Earlier(q, t) else 0
  }

  /** A firing, and what follows it in the pass, leave fewer due timers if only later times are asked for. */
  lemma FiringShrinks(clock: int, log: seq<Step>, m: nat, t: int)
    requires Legal(Initial(clock), log) && m < |log| && log[m].Fire? && After(clock, log, m).pass == PassAt(t)
    requires Patient(log, m) && forall k :: m <= k < |log| ==> !log[k].PassStart? && !log[k].PassEnd?
    ensures Due(Run(Initial(clock), log).queue, t) < Due(After(clock, log, m).queue, t)
  {
    LegalPrefix(Initial(clock), log, m);
    PassClock(clock, log[..m]);
    forall k | m <= k < |log| && log[k].Park?
      ensures t < log[k].due
    {
      ClockRuns(clock, log, m, k);
      StepAt(clock, log, k);
    }
    DueTimersCount(clock, log, m, |log|, t);
    NoneAskedDue(log, m, |log|, t);
    FiresStep(log, m);
    FiresGrow(log, m + 1);
    assert log[..|log|] == log;
    SortedAt(clock, log, m);
    SortedAt(clock, log, |log|);
  }

  lemma {:induction false} FiresGrow(log: seq<Step>, m: nat)
    requires m <= |log|
    ensures Fires(log[..m]) <= Fires(log)
    decreases |log|
  {
    if m < |log| {
      FiresGrow(log[..|log| - 1], m);
      assert log[..|log| - 1][..m] == log[..m];
    } else {
      assert log[..m] == log;
    }
  }

  lemma FirstShrinks(s: State, t: int)
    requires Coherent(s) && s.queue != [] && s.queue[0].due <= t
    ensures Due(Without(s.queue, s.queue[0].node), t) < Due(s.queue, t)
  {
    WithoutSorted(s.queue, s.queue[0].node);
    EarlierFirst(s.queue, t);
  }

  /** Since step n all waits asked for were for later than the moment of asking. */
  ghost predicate Patient(log: seq<Step>, n: nat) {
    forall k :: n <= k < |log| && log[k].Park? ==> log[k].at < log[k].due
  }

  /** Waits for later than the moment of asking are for later than the pass. */
  lemma PatientAsksLater(clock: int, log: seq<Step>, p: nat, n: nat)
    requires Legal(Initial(clock), log) && p < n <= |log| && log[p].PassStart? && Patient(log[..n], p)
    ensures AskedLater(log, p, n, log[p].at)
  {
    StepAt(clock, log, p);
    forall i | p < i < n && log[i].Park?
      ensures log[p].at < log[i].due
    {
      assert log[..n][i] == log[i];
      ClockRuns(clock, log, p + 1, i);
      StepAt(clock, log, i);
    }
  }

  lemma FiresStep(log: seq<Step>, n: nat)
    requires n < |log|
    ensures Fires(log[..n + 1]) == Fires(log[..n]) + if log[n].Fire? then 1 else 0
  {
    assert log[..n + 1][..n] == log[..n];
  }

  lemma EarlierStep(s: State, a: Step, t: int)
    requires Coherent(s) && Possible(s, a) && s.pass == PassAt(t) && !a.PassEnd?
    ensures Sorted(Next(s, a).queue)
    ensures var now := Earlier(Next(s, a).queue, t);
      now == Earlier(s.queue, t) - (if a.Fire? then 1 else 0) + if a.Park? && a.due <= t then 1 else 0
  {
    NextCoherent(s, a);
    match a
    case Park(id, _, _, due) => EarlierInsert(s.queue, Timer(id, due), t);
    case Fire(id) => EarlierFirst(s.queue, t);
    case _ =>
  }

  lemma EarlierInsert(q: seq<Timer>, x: Timer, t: int)
    requires Sorted(q) && Sorted(StableInsert(q, x))
    ensures Earlier(StableInsert(q, x), t) == Earlier(q, t) + if x.due <= t then 1 else 0
  {
    var k := Earlier(q, t);
    var a, b := StableInsertSplits(q, x);
    var r := a + [x] + b;
    InsertAt(q, a, x, b, t, k);
    EarlierIs(r, t, if x.due <= t then k + 1 else k);
  }

  lemma InsertAt(q: seq<Timer>, a: seq<Timer>, x: Timer, b: seq<Timer>, t: int, k: nat)
    requires q == a + b && k <= |q| && (forall y :: y in a ==> y.due <= x.due) && (forall y :: y in b ==> x.due < y.due)
    requires forall i :: 0 <= i < k ==> q[i].due <= t
    requires forall i :: k <= i < |q| ==> t < q[i].due
    ensures var r, j := a + [x] + b, if x.due <= t then k + 1 else k;
      && j <= |r| && (forall i :: 0 <= i < j ==> r[i].due <= t) && (forall i :: j <= i < |r| ==> t < r[i].due)
  {
    var r := a + [x] + b;
    forall i | 0 <= i < |r|
      ensures if i < (if x.due <= t then k + 1 else k) then r[i].due <= t else t < r[i].due
    {
      if i < |a| {
        assert r[i] == q[i] && q[i] in a;
      } else if i > |a| {
        assert r[i] == q[i - 1] && r[i] == b[i - |a| - 1] && r[i] in b;
      }
      if |a| < |q| {
        assert q[|a|] == b[0] && b[0] in b;
      }
      if a != [] {
        assert q[|a| - 1] == a[|a| - 1] && a[|a| - 1] in a;
      }
    }
  }

  lemma EarlierFirst(q: seq<Timer>, t: int)
    requires Sorted(q) && OneEach(q) && q != [] && q[0].due <= t && Sorted(Without(q, q[0].node))
    ensures Earlier(Without(q, q[0].node), t) == Earlier(q, t) - 1
  {
    assert forall i :: 0 <= i < |q[1..]| ==> q[1..][i] == q[i + 1];
    WithoutNone(q[1..], q[0].node);
    EarlierIs(q[1..], t, Earlier(q, t) - 1);
  }

  lemma EarlierIs(q: seq<Timer>, t: int, k: nat)
    requires Sorted(q) && k <= |q|
    requires forall i :: 0 <= i < k ==> q[i].due <= t
    requires forall i :: k <= i < |q| ==> t < q[i].due
    ensures Earlier(q, t) == k
  {
    var e := Earlier(q, t);
    var atE, atK := if e < |q| then q[e].due else t, if k < |q| then q[k].due else t;
  }

  /** A pass fires what was due when it began and what was asked for in it for no later; so it fires as many timers as were due
      exactly when nothing of the kind was asked for. */
  lemma PassFiresWhatIsDue(clock: int, log: seq<Step>, p: nat, e: nat)
    requires Legal(Initial(clock), log) && OnePass(log, p, e)
    ensures var t := log[p].at;
      Fires(log[..e]) - Fires(log[..p]) == DueAt(clock, log, p, t) + AskedDue(log[..e], t) - AskedDue(log[..p], t)
    ensures Fires(log[..e]) - Fires(log[..p]) == DueAt(clock, log, p, log[p].at) <==> AskedLater(log, p, e, log[p].at)
  {
    PassCounts(clock, log, p, e);
    NoneAskedDue(log, p, e, log[p].at);
    StepAt(clock, log, e);
    PassGoesOn(clock, log, p, e);
    SortedAt(clock, log, e);
    EarlierIs(After(clock, log, e).queue, log[p].at, 0);
  }

  // ------------------------------------------------------------ passes, counted

  ghost function Passes(log: seq<Step>): nat {
    if log == [] then 0 else Passes(log[..|log| - 1]) + if log[|log| - 1].PassStart? then 1 else 0
  }

  lemma {:induction false} NoPassBetween(before: seq<Step>, log: seq<Step>)
    requires before <= log && forall k :: |before| <= k < |log| ==> !log[k].PassStart?
    ensures Passes(log) == Passes(before)
    decreases |log|
  {
    if |before| < |log| {
      NoPassBetween(before, log[..|log| - 1]);
    } else {
      assert log == before;
    }
  }

  lemma OnePassCounts(before: seq<Step>, log: seq<Step>)
    requires before <= log && OnePass(log, |before|, |log| - 1)
    ensures Passes(log) == Passes(before) + 1
  {
    var l := log[..|before| + 1];
    assert l[..|before|] == before;
    NoPassBetween(l, log);
  }

  /** When no pass is on, every pass that began has ended. */
  lemma {:induction false} PassEnds(clock: int, log: seq<Step>, p: nat) returns (e: nat)
    requires Legal(Initial(clock), log) && p < |log| && log[p].PassStart? && Run(Initial(clock), log).pass.NoPass?
    ensures OnePass(log, p, e)
    decreases |log| - p
  {
    assert log[..|log|] == log;
    e := FirstPassStep(clock, log, p, p + 1);
  }

  /** While steps p + 1 to n say nothing of a pass, the one that began at p is on. */
  lemma {:induction false} FirstPassStep(clock: int, log: seq<Step>, p: nat, n: nat) returns (e: nat)
    requires Legal(Initial(clock), log) && p < n <= |log| && log[p].PassStart? && After(clock, log, |log|).pass.NoPass?
    requires forall k :: p < k < n ==> !log[k].PassStart? && !log[k].PassEnd?
    ensures OnePass(log, p, e)
    decreases |log| - n
  {
    PassGoesOn(clock, log, p, n);
    if n < |log| {
      StepAt(clock, log, n);
      if log[n].PassEnd? {
        e := n;
      } else {
        e := FirstPassStep(clock, log, p, n + 1);
      }
    }
  }

  /** In a run that is not in the middle of a pass, a wait whose deadline some later pass reached is over by its end. */
  lemma WokenInTime(clock: int, log: seq<Step>, i: nat, p: nat) returns (k: nat, e: nat)
    requires Legal(Initial(clock), log) && Run(Initial(clock), log).pass.NoPass? && i < p < |log|
    requires log[i].Park? && log[p].PassStart? && log[i].due <= log[p].at
    ensures OnePass(log, p, e)
    ensures i < k < e && About(log[k], log[i].id) && (forall n :: i < n < k ==> !About(log[n], log[i].id))
    ensures EndsWait(clock, log, i, k)
  {
    e := PassEnds(clock, log, p);
    k := NoLateWake(clock, log, i, p, e);
  }

  /** When a pass ends no timer is due. */
  lemma NothingDueRemains(clock: int, log: seq<Step>, p: nat, e: nat)
    requires Legal(Initial(clock), log) && OnePass(log, p, e)
    ensures forall t :: t in After(clock, log, e + 1).queue ==> log[p].at < t.due
  {
    StepAt(clock, log, e);
    PassGoesOn(clock, log, p, e);
    SortedAt(clock, log, e);
  }

  /** What was pending and what the handlers asked for in a pass has been fired in it or is still pending. */
  lemma PassConserves(clock: int, log: seq<Step>, p: nat, e: nat)
    requires Legal(Initial(clock), log) && OnePass(log, p, e)
    ensures |After(clock, log, p).queue| + Parks(log[..e]) - Parks(log[..p])
      == Fires(log[..e]) - Fires(log[..p]) + |After(clock, log, e).queue|
  {
    LegalPrefix(Initial(clock), log, p);
    LegalPrefix(Initial(clock), log, e);
    WaitsConserved(clock, log[..p]);
    WaitsConserved(clock, log[..e]);
    NoDelivery(clock, log, p, e);
  }

  lemma {:induction false} NoDelivery(clock: int, log: seq<Step>, p: nat, n: nat)
    requires Legal(Initial(clock), log) && p < n <= |log| && log[p].PassStart?
    requires forall k :: p < k < n ==> !log[k].PassStart? && !log[k].PassEnd?
    ensures Delivers(log[..n]) == Delivers(log[..p])
    ensures forall k :: p < k < n ==> !log[k].Deliver?
    decreases n
  {
    assert log[..n][..n - 1] == log[..n - 1];
    if n > p + 1 {
      NoDelivery(clock, log, p, n - 1);
      StepAt(clock, log, n - 1);
      PassGoesOn(clock, log, p, n - 1);
    }
  }

  /** Each timer that is due when a pass begins is fired in it, at step k and at no other, whatever the handlers ask for. */
  lemma PassFiresEach(clock: int, log: seq<Step>, p: nat, e: nat, t: Timer) returns (k: nat)
    requires Legal(Initial(clock), log) && OnePass(log, p, e)
    requires t in After(clock, log, p).queue && t.due <= log[p].at
    ensures p < k < e && log[k] == Fire(t.node) && Asked(log, k) == LastAbout(log[..p], t.node)
    ensures forall j :: p < j < e && log[j] == Fire(t.node) && Asked(log, j) == Asked(log, k) ==> j == k
  {
    LegalPrefix(Initial(clock), log, p);
    RunCoherent(clock, log[..p]);
    ParkedSince(clock, log[..p], t.node);
    var i := LastAbout(log[..p], t.node);
    k := NoLateWake(clock, log, i, p, e);
    NoDelivery(clock, log, p, e);
    forall n | i < n <= p
      ensures !About(log[n], t.node)
    {
      assert n < p ==> log[n] == log[..p][n];
    }
    AskedIs(log, i, k);
    forall j | p < j < e && log[j] == Fire(t.node) && Asked(log, j) == Asked(log, k)
      ensures j == k
    {
      AskedOnce(log, j, k);
      AskedOnce(log, k, j);
    }
  }

  /** So is each wait asked for in a pass for no later than the pass. */
  lemma PassFiresAsked(clock: int, log: seq<Step>, p: nat, e: nat, i: nat) returns (k: nat)
    requires Legal(Initial(clock), log) && OnePass(log, p, e) && p < i < e && log[i].Park? && log[i].due <= log[p].at
    ensures i < k < e && log[k] == Fire(log[i].id) && Asked(log, k) == i
    ensures forall j :: p < j < e && log[j] == Fire(log[i].id) && Asked(log, j) == i ==> j == k
  {
    k := NoLateWake(clock, log, i, p, e);
    NoDelivery(clock, log, p, e);
    AskedIs(log, i, k);
    forall j | p < j < e && log[j] == Fire(log[i].id) && Asked(log, j) == i
      ensures j == k
    {
      AskedOnce(log, j, k);
      AskedOnce(log, k, j);
    }
  }

  /** A coroutine fired at step k is fired again in the pass exactly when it asks again for no later than the pass. */
  lemma FiredAgainIfAskedAgain(clock: int, log: seq<Step>, p: nat, e: nat, k: nat)
    requires Legal(Initial(clock), log) && OnePass(log, p, e) && p < k < e && log[k].Fire?
    ensures (exists j :: k < j < e && log[j] == log[k])
      <==> exists i :: k < i < e && log[i].Park? && log[i].id == log[k].id && log[i].due <= log[p].at
  {
    if j :| k < j < e && log[j] == log[k] {
      FiredByThisPass(clock, log, p, e, j);
      assert log[..j][k] == log[k];
      assert k < Asked(log, j);
    }
    if i :| k < i < e && log[i].Park? && log[i].id == log[k].id && log[i].due <= log[p].at {
      var j := PassFiresAsked(clock, log, p, e, i);
    }
  }

  lemma AskedIs(log: seq<Step>, i: nat, k: nat)
    requires i < k < |log| && log[k].Fire? && About(log[i], log[k].id)
    requires forall n :: i < n < k ==> !About(log[n], log[k].id)
    ensures Asked(log, k) == i
  {
    assert log[..k][i] == log[i];
  }

  /** No request is fired twice: a later firing answers a later request. */
  lemma AskedOnce(log: seq<Step>, j: nat, k: nat)
    requires j < |log| && k < |log| && log[j].Fire? && log[j] == log[k]
    ensures j < k ==> Asked(log, j) < j <= Asked(log, k)
  {
    if j < k {
      assert log[..k][j] == log[j];
    }
  }

  /** The pass in which a timer is fired is the one that is on. */
  lemma FiredByThisPass(clock: int, log: seq<Step>, p: nat, e: nat, j: nat)
    requires Legal(Initial(clock), log) && OnePass(log, p, e) && p < j < e && log[j].Fire?
    ensures 0 <= Asked(log, j) < j && log[Asked(log, j)].Park? && log[Asked(log, j)].due <= log[p].at
  {
    AskedFacts(clock, log, j);
    StepAt(clock, log, j);
    PassGoesOn(clock, log, p, j);
  }

  // ------------------------------------------------------------ a pass that does not end

  /** The steps of a pass in which a coroutine, whenever it wakes, asks for no delay, and the clock stands still. */
  ghost function Restless(id: Node, clock: int, n: nat): seq<Step> {
    if n == 0 then [Start(id), Park(id, Asleep, clock, clock), PassStart(clock)]
    else Restless(id, clock, n - 1) + [Fire(id), Park(id, Asleep, clock, clock)]
  }

  ghost function RestlessState(id: Node, clock: int): State {
    State(clock, [Timer(id, clock)], map[id := Parked(Asleep, clock)], PassAt(clock))
  }

  lemma RestlessBegins(id: Node, clock: int)
    ensures Legal(Initial(clock), Restless(id, clock, 0)) && Fires(Restless(id, clock, 0)) == 0
    ensures Run(Initial(clock), Restless(id, clock, 0)) == RestlessState(id, clock)
  {
    var a, b := [Start(id)], [Start(id), Park(id, Asleep, clock, clock)];
    var c := b + [PassStart(clock)];
    assert a == [] + [Start(id)] && b == a + [b[1]] && c == Restless(id, clock, 0);
    assert a[..0] == [] && b[..1] == a && c[..2] == b;
    assert Run(Initial(clock), []) == Initial(clock) && Legal(Initial(clock), []);
    assert Fires([]) == 0 && Fires(a) == Fires([]) && Fires(b) == Fires(a) && Fires(c) == Fires(b);
    hide Legal;
    hide Run;
    Extended(Initial(clock), [], a[0]);
    Extended(Initial(clock), a, b[1]);
    Extended(Initial(clock), b, c[2]);
  }

  lemma RestlessGoesOn(id: Node, clock: int)
    ensures Possible(RestlessState(id, clock), Fire(id))
    ensures var s := Next(RestlessState(id, clock), Fire(id)); var park := Park(id, Asleep, clock, clock);
      Possible(s, park) && Next(s, park) == RestlessState(id, clock)
  {
    var q := [Timer(id, clock)];
    assert Without(q[1..], id) == [];
    assert Next(RestlessState(id, clock), Fire(id)).queue == [];
  }

  /** Without the handlers asking for later times a pass may go on for any number of firings. */
  lemma {:induction false} ZeroDelayNeverEnds(id: Node, clock: int, n: nat)
    ensures Legal(Initial(clock), Restless(id, clock, n)) && Fires(Restless(id, clock, n)) == n
    ensures Run(Initial(clock), Restless(id, clock, n)) == RestlessState(id, clock)
  {
    if n == 0 {
      RestlessBegins(id, clock);
    } else {
      ZeroDelayNeverEnds(id, clock, n - 1);
      RestlessGoesOn(id, clock);
      var log, park := Restless(id, clock, n - 1), Park(id, Asleep, clock, clock);
      var l := log + [Fire(id)];
      Extended(Initial(clock), log, Fire(id));
      Extended(Initial(clock), l, park);
      assert Restless(id, clock, n) == l + [park];
      assert l[..|l| - 1] == log && (l + [park])[..|l|] == l;
    }
  }
}
