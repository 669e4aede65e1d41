/** How runs end: none goes on for ever, so a run that never ends is one that reaches a state in which the host
    has not ended and no process can move. What such a state looks like, and the plainest way into one. */
module Stalls {
  import opened Bytes
  import opened Transport
  import opened Safety

  /** The host has returned, with a report or an error. */
  predicate Ended(s: State) {
    s.host.Finished? || s.host.ReaderFailed?
  }

  ghost predicate Hung(c: Chain, s: State) {
    Shaped(c, s) && !Ended(s) && forall a :: !Enabled(c, s, a)
  }

  ghost predicate CanHang(c: Chain) {
    Wired(c) && exists run :: Execute(c, Start(c), run).Some? && Hung(c, Execute(c, Start(c), run).value)
  }

  // ---------------------------------------------------------------- runs are finite

  function Undecided(p: Child): nat {
    if p.Reading? then 1 else 0
  }

  function Pending(p: Child): nat {
    if p.Writing? then 2 * |p.left| + 1 else 0
  }

  function Each(s: State, f: Child -> nat): (xs: seq<nat>)
    ensures |xs| == |s.children|
  {
    seq(|s.children|, i requires 0 <= i < |s.children| => f(s.children[i]))
  }

  /** The number of children that have not decided. */
  function Open(s: State): nat {
    Total(Each(s, Undecided))
  }

  /** The moves left before a further child decides, at most. */
  function Moves(c: Chain, s: State): nat {
    HostWork(c, s.host) + Total(PipeWork(s)) + Total(Each(s, Pending))
  }

  lemma {:induction false} EachUpdate(s: State, t: State, i: nat, f: Child -> nat)
    requires i < |s.children| == |t.children| && t.children == s.children[i := t.children[i]]
    ensures Total(Each(t, f)) + f(s.children[i]) == Total(Each(s, f)) + f(t.children[i])
  {
    assert Each(t, f) == Each(s, f)[i := f(t.children[i])];
    TotalUpdate(Each(s, f), i, f(t.children[i]));
  }

  lemma {:induction false} EachSame(s: State, t: State, f: Child -> nat)
    requires t.children == s.children
    ensures Each(t, f) == Each(s, f)
  {
  }

  /** Every step lets a child decide, or leaves fewer moves before the next decision. */
  lemma {:induction false} StepFalls(c: Chain, s: State, a: Action)
    requires Safe(c, s) && Enabled(c, s, a)
    ensures var t := Apply(c, s, a);
            Open(t) < Open(s) || (Open(t) == Open(s) && Moves(c, t) < Moves(c, s))
  {
    if a.HostWrite? || a.HostBroken? || a.HostClose? || a.HostRead? || a.HostEof? || a.HostReap? {
      HostStepFalls(c, s, a);
    } else {
      ChildStepFalls(c, s, a);
    }
  }

  lemma {:induction false} HostStepFalls(c: Chain, s: State, a: Action)
    requires Safe(c, s) && Enabled(c, s, a)
    requires a.HostWrite? || a.HostBroken? || a.HostClose? || a.HostRead? || a.HostEof? || a.HostReap?
    ensures Open(Apply(c, s, a)) == Open(s) && Moves(c, Apply(c, s, a)) < Moves(c, s)
  {
    hide PipeSafe, ChildSafe, Holds, Total, PipeWork, Each;
    var m, t := |c.programs|, Apply(c, s, a);
    SamePipes(s, t);
    ChildrenSame(s, t);
    if a.HostWrite? {
      PipeUpdate(s, t, 0, t.pipes[0]);
    } else if a.HostRead? {
      PipeUpdate(s, t, m, t.pipes[m]);
    }
  }

  lemma {:induction false} ChildStepFalls(c: Chain, s: State, a: Action)
    requires Safe(c, s) && Enabled(c, s, a)
    requires a.ChildRead? || a.ChildEof? || a.ChildDecide? || a.ChildWrite? || a.ChildBroken? || a.ChildExit?
    ensures var t := Apply(c, s, a);
            Open(t) < Open(s) || (Open(t) == Open(s) && Moves(c, t) < Moves(c, s))
  {
    hide PipeSafe, ChildSafe, HostSafe, Holds, Total, PipeWork, Each;
    var t := Apply(c, s, a);
    SamePipes(s, t);
    ChildMoves(s, t, a.i);
    if a.ChildRead? {
      PipeUpdate(s, t, a.i, t.pipes[a.i]);
    } else if a.ChildWrite? {
      PipeUpdate(s, t, a.i + 1, t.pipes[a.i + 1]);
    }
  }

  lemma {:induction false} SamePipes(s: State, t: State)
    ensures t.pipes == s.pipes ==> PipeWork(t) == PipeWork(s)
  {
  }

  lemma {:induction false} ChildrenSame(s: State, t: State)
    requires t.children == s.children
    ensures Each(t, Undecided) == Each(s, Undecided) && Each(t, Pending) == Each(s, Pending)
  {
    EachSame(s, t, Undecided);
    EachSame(s, t, Pending);
  }

  lemma {:induction false} ChildMoves(s: State, t: State, i: nat)
    requires i < |s.children| == |t.children| && t.children == s.children[i := t.children[i]]
    ensures Open(t) + Undecided(s.children[i]) == Open(s) + Undecided(t.children[i])
    ensures Total(Each(t, Pending)) + Pending(s.children[i]) == Total(Each(s, Pending)) + Pending(t.children[i])
  {
    EachUpdate(s, t, i, Undecided);
    EachUpdate(s, t, i, Pending);
  }

  function FirstOf(next: nat -> Action, n: nat): seq<Action> {
    seq(n, k requires 0 <= k < n => next(k))
  }

  /** No chain has an infinite run, whatever its programs and however its processes fail. */
  lemma {:induction false} EveryRunEnds(c: Chain, s: State, next: nat -> Action) returns (n: nat)
    requires Wired(c) && Safe(c, s)
    ensures Execute(c, s, FirstOf(next, n)).None?
    decreases Open(s), Moves(c, s)
  {
    hide Wired, PipeSafe, ChildSafe, HostSafe, Open, Moves, Enabled, Apply;
    if !Enabled(c, s, next(0)) {
      n := 1;
      assert FirstOf(next, 1)[0] == next(0);
    } else {
      StepFalls(c, s, next(0));
      StepSafe(c, s, next(0));
      var later := (k: nat) => next(k + 1);
      n := EveryRunEnds(c, Apply(c, s, next(0)), later);
      assert FirstOf(next, n + 1)[0] == next(0) && FirstOf(next, n + 1)[1..] == FirstOf(later, n);
      n := n + 1;
    }
  }

  // ---------------------------------------------------------------- the shape of a hung state

  /** In a hung state a child that waits for input wants more, finds its pipe empty, and a write end of it is
      still held. */
  lemma {:induction false} HungReader(c: Chain, s: State, i: nat)
    requires Wired(c) && Hung(c, s) && i < |c.programs| && s.children[i].Reading?
    ensures c.programs[i](s.children[i].got).More? && s.pipes[i] == [] && Holds(c, s, WriteEnd(i))
  {
    hide Holds;
    assert !Enabled(c, s, ChildDecide(i)) && !Enabled(c, s, ChildRead(i, |s.pipes[i]|)) && !Enabled(c, s, ChildEof(i));
  }

  /** In a hung state a child that still writes finds its pipe full. Its reader, if a child, has stopped
      reading; if the host, it is still feeding. */
  lemma {:induction false} HungWriter(c: Chain, s: State, i: nat)
    requires Wired(c) && Safe(c, s) && Hung(c, s) && i < |c.programs| && s.children[i].Writing?
    ensures s.children[i].left != [] && |s.pipes[i + 1]| == c.capacity[i + 1] > 0
    ensures if i + 1 < |c.programs| then !s.children[i + 1].Reading? else s.host.Feeding?
  {
    hide Holds, PipeSafe, ChildSafe;
    var m := |c.programs|;
    assert !Enabled(c, s, ChildExit(i)) && !Enabled(c, s, ChildBroken(i)) && !Enabled(c, s, ChildWrite(i, 1));
    assert !Enabled(c, s, HostRead(|s.pipes[m]|));
    WriterIsFull(c, s, i);
    if i + 1 < m && s.children[i + 1].Reading? {
      HungReader(c, s, i + 1);
    }
  }

  lemma {:induction false} WriterIsFull(c: Chain, s: State, i: nat)
    requires Wired(c) && Safe(c, s) && i < |c.programs| && s.children[i].Writing? && s.children[i].left != []
    requires !Enabled(c, s, ChildBroken(i)) && !Enabled(c, s, ChildWrite(i, 1))
    ensures |s.pipes[i + 1]| == c.capacity[i + 1] > 0
  {
    hide Holds, ChildSafe;
    assert PipeSafe(c, s, i + 1);
  }

  /** In a hung state a host that still feeds finds the first pipe full and held for reading, by a child: the
      first child has reached its verdict short of the stream's end. */
  lemma {:induction false} HungFeeding(c: Chain, s: State)
    requires Wired(c) && Safe(c, s) && Hung(c, s) && s.host.Feeding?
    ensures !s.children[0].Reading? && !c.programs[0](s.children[0].got).More?
    ensures s.children[0].got <= c.stream && |s.children[0].got| + c.capacity[0] < |c.stream|
    ensures Holds(c, s, ReadEnd(0)) && ReadEnd(0) !in s.hostEnds
  {
    hide Holds;
    assert PipeSafe(c, s, 0) && ChildSafe(c, s, 0);
    assert |s.children[0].got| + |s.pipes[0]| + |s.host.left| <= |c.stream|;
    assert !Enabled(c, s, HostClose) && !Enabled(c, s, HostBroken) && !Enabled(c, s, HostWrite(1));
    if s.children[0].Reading? {
      HungReader(c, s, 0);
    }
  }

  /** In a hung state a host that has closed waits for a live child. */
  lemma {:induction false} HungClosed(c: Chain, s: State) returns (i: nat)
    requires Wired(c) && Safe(c, s) && Hung(c, s) && !s.host.Feeding?
    ensures i < |c.programs| && Live(s.children[i])
  {
    hide Holds, PipeSafe, ChildSafe;
    var m := |c.programs|;
    assert !Enabled(c, s, HostReap) && !Enabled(c, s, HostEof) && !Enabled(c, s, HostRead(|s.pipes[m]|));
    if s.host.Reaping? {
      i := s.host.next;
    } else {
      i := SomeHolder(c, s, WriteEnd(m));
    }
  }

  lemma {:induction false} SomeHolder(c: Chain, s: State, e: End) returns (i: nat)
    requires Shaped(c, s) && Holds(c, s, e) && e !in s.hostEnds
    ensures i < |c.programs| && Live(s.children[i]) && e in c.ends[i]
  {
    i :| i < |s.children| && Live(s.children[i]) && e in c.ends[i];
  }

  /** Once the host has closed and the first pipe is empty, the first child has the whole stream. */
  lemma {:induction false} GotWholeStream(c: Chain, s: State)
    requires Safe(c, s) && !s.host.Feeding? && !s.host.ReaderFailed? && s.pipes[0] == []
    ensures s.children[0].got == c.stream
  {
    assert PipeSafe(c, s, 0);
  }

  lemma {:induction false} LiveHolds(c: Chain, s: State, i: nat, e: End)
    requires Shaped(c, s) && i < |c.programs| && Live(s.children[i]) && e in c.ends[i]
    ensures Holds(c, s, e)
  {
  }

  // ---------------------------------------------------------------- reachable states

  ghost predicate Reachable(c: Chain, s: State) {
    Wired(c) && exists run :: Execute(c, Start(c), run) == Some(s)
  }

  lemma {:induction false} ReachStart(c: Chain)
    requires Wired(c)
    ensures Reachable(c, Start(c))
  {
    assert Execute(c, Start(c), []) == Some(Start(c));
  }

  lemma {:induction false} ReachStep(c: Chain, s: State, a: Action)
    requires Reachable(c, s) && Shaped(c, s) && Enabled(c, s, a)
    ensures Reachable(c, Apply(c, s, a))
  {
    hide Enabled, Apply, Execute;
    var run :| Execute(c, Start(c), run) == Some(s);
    ExecuteConcat(c, Start(c), run, [a]);
    OneStep(c, s, a);
    assert Execute(c, Start(c), run + [a]) == Some(Apply(c, s, a));
  }

  lemma {:induction false} OneStep(c: Chain, s: State, a: Action)
    requires Shaped(c, s) && Enabled(c, s, a)
    ensures Execute(c, s, [a]) == Some(Apply(c, s, a))
  {
    hide Enabled, Apply;
    assert [a][1..] == [];
  }

  lemma {:induction false} ExecuteConcat(c: Chain, s: State, a: seq<Action>, b: seq<Action>)
    requires Shaped(c, s) && Execute(c, s, a).Some?
    ensures Execute(c, s, a + b) == Execute(c, Execute(c, s, a).value, b)
    decreases |a|
  {
    hide Enabled, Apply;
    if a == [] {
      assert a + b == b;
    } else {
      assert (a + b)[0] == a[0] && (a + b)[1..] == a[1..] + b;
      ExecuteConcat(c, Apply(c, s, a[0]), a[1..], b);
    }
  }

  lemma {:induction false} ReachHangs(c: Chain, s: State)
    requires Reachable(c, s) && Hung(c, s)
    ensures CanHang(c)
  {
    hide Hung, Execute;
    var run :| Execute(c, Start(c), run) == Some(s);
    assert Execute(c, Start(c), run).Some?;
  }

  /** The first child has taken `k` bytes, one at a time, and everything else is as at the start. */
  function Moved(c: Chain, k: nat): State
    requires k <= |c.stream|
  {
    State(Feeding(c.stream[k..]), {WriteEnd(0), ReadEnd(|c.programs|)}, seq(|c.programs| + 1, i => []),
          seq(|c.programs|, i => Reading(if i == 0 then c.stream[..k] else [])))
  }

  function Halfway(c: Chain, k: nat): State
    requires k < |c.stream|
  {
    Moved(c, k).(host := Feeding(c.stream[k + 1..]),
                 pipes := seq(|c.programs| + 1, i => if i == 0 then [c.stream[k]] else []))
  }

  lemma {:induction false} WriteOne(c: Chain, k: nat)
    requires Wired(c) && k < |c.stream|
    ensures Shaped(c, Moved(c, k)) && Enabled(c, Moved(c, k), HostWrite(1))
    ensures Apply(c, Moved(c, k), HostWrite(1)) == Halfway(c, k)
  {
    var s := Moved(c, k);
    assert Live(s.children[0]) && ReadEnd(0) in c.ends[0];
    assert c.stream[k..][..1] == [c.stream[k]] && c.stream[k..][1..] == c.stream[k + 1..];
    assert s.pipes[0] + [c.stream[k]] == [c.stream[k]];
  }

  lemma {:induction false} ReadOne(c: Chain, k: nat)
    requires Wired(c) && k < |c.stream| && c.programs[0](c.stream[..k]).More?
    ensures Shaped(c, Halfway(c, k)) && Enabled(c, Halfway(c, k), ChildRead(0, 1))
    ensures Apply(c, Halfway(c, k), ChildRead(0, 1)) == Moved(c, k + 1)
  {
    hide Holds;
    var t := Halfway(c, k);
    var v := Apply(c, t, ChildRead(0, 1));
    assert c.stream[..k] + [c.stream[k]] == c.stream[..k + 1];
    assert t.pipes[0][..1] == [c.stream[k]] && t.pipes[0][1..] == [];
    assert v.children == Moved(c, k + 1).children && v.pipes == Moved(c, k + 1).pipes;
  }

  lemma {:induction false} ReachMoved(c: Chain, k: nat)
    requires Wired(c) && k <= |c.stream| && forall n: nat | n < k :: c.programs[0](c.stream[..n]).More?
    ensures Reachable(c, Moved(c, k))
  {
    hide Enabled, Apply, Reachable;
    if k == 0 {
      assert c.stream[0..] == c.stream;
      assert Start(c) == Moved(c, 0);
      ReachStart(c);
    } else {
      ReachMoved(c, k - 1);
      WriteOne(c, k - 1);
      ReachStep(c, Moved(c, k - 1), HostWrite(1));
      ReadOne(c, k - 1);
      ReachStep(c, Halfway(c, k - 1), ChildRead(0, 1));
    }
  }

  // ---------------------------------------------------------------- a starved run

  function Starved(c: Chain): State {
    State(Draining([]), {ReadEnd(|c.programs|)}, seq(|c.programs| + 1, i => []),
          seq(|c.programs|, i => Reading(if i == 0 then c.stream else [])))
  }

  lemma {:induction false} LastMove(c: Chain)
    requires Wired(c)
    ensures var s := Moved(c, |c.stream|);
            Shaped(c, s) && Enabled(c, s, HostClose) && Apply(c, s, HostClose) == Starved(c)
  {
    var k := |c.stream|;
    var s := Moved(c, k);
    var t := Apply(c, s, HostClose);
    assert t.hostEnds == Starved(c).hostEnds;
    assert c.stream[..k] == c.stream && t.children == Starved(c).children;
  }

  /** Every child wants input for ever: the first one more than the whole stream, the others some. */
  ghost predicate Hungry(c: Chain)
    requires |c.programs| > 0
  {
    && (forall n: nat | n <= |c.stream| :: c.programs[0](c.stream[..n]).More?)
    && (forall i: nat | 0 < i < |c.programs| :: c.programs[i]([]).More?)
  }

  lemma {:induction false} StarvedHolds(c: Chain, holder: nat, i: nat)
    requires Wired(c) && holder < |c.programs| && WriteEnd(0) in c.ends[holder] && i <= |c.programs|
    ensures Holds(c, Starved(c), WriteEnd(i))
  {
    var s := Starved(c);
    if i == 0 {
      assert Live(s.children[holder]);
    } else {
      assert Live(s.children[i - 1]) && WriteEnd(i) in c.ends[i - 1];
    }
  }

  lemma {:induction false} StarvedBlocks(c: Chain, a: Action)
    requires Wired(c) && Hungry(c) && forall i: nat | i <= |c.programs| :: Holds(c, Starved(c), WriteEnd(i))
    ensures !Enabled(c, Starved(c), a)
  {
    hide Holds;
    assert c.stream[..|c.stream|] == c.stream;
    var s := Starved(c);
    match a {
      case ChildRead(i, _) => assert i < |c.programs| ==> s.pipes[i] == [];
      case ChildEof(i) => assert i < |c.programs| ==> Holds(c, s, WriteEnd(i));
      case ChildDecide(i) => assert i < |c.programs| ==> c.programs[i](s.children[i].got).More?;
      case _ =>
    }
  }

  /** If the first child wants more than the whole stream and some child has inherited the write end of
      its input, a run gets stuck before the host finishes: the end of file never comes. */
  lemma {:induction false} StarvedIsStuck(c: Chain, holder: nat)
    requires Wired(c) && holder < |c.programs| && WriteEnd(0) in c.ends[holder] && Hungry(c)
    ensures Reachable(c, Starved(c)) && forall a :: !Enabled(c, Starved(c), a)
  {
    hide Enabled, Apply, Holds, Reachable;
    ReachMoved(c, |c.stream|);
    LastMove(c);
    ReachStep(c, Moved(c, |c.stream|), HostClose);
    forall i: nat | i <= |c.programs|
      ensures Holds(c, Starved(c), WriteEnd(i))
    {
      StarvedHolds(c, holder, i);
    }
    forall a
      ensures !Enabled(c, Starved(c), a)
    {
      StarvedBlocks(c, a);
    }
  }

  /** A starved chain: every child still waits for its input, and only the first has received any. */
  ghost predicate Waiting(c: Chain, s: State)
    requires Shaped(c, s) && |c.programs| > 0
  {
    && (s.host.Feeding? || s.host == Draining([]))
    && (forall i: nat | i < |c.programs| :: s.children[i].Reading?)
    && (forall i: nat | 0 < i < |c.programs| :: s.children[i].got == [])
    && (forall i: nat | 0 < i <= |c.programs| :: s.pipes[i] == [])
    && s.children[0].got + s.pipes[0] + Unsent(s, 0) == c.stream
  }

  lemma {:induction false} WaitingStays(c: Chain, s: State, a: Action, holder: nat)
    requires Wired(c) && holder < |c.programs| && WriteEnd(0) in c.ends[holder] && Hungry(c)
    requires Shaped(c, s) && Waiting(c, s) && Enabled(c, s, a)
    ensures Waiting(c, Apply(c, s, a))
  {
    hide Holds;
    WaitingHolds(c, s, holder);
    var got := s.children[0].got;
    assert got == c.stream[..|got|];
    MoveBytes(got, s.pipes[0], Unsent(s, 0), if a.HostWrite? || a.ChildRead? then a.k else 0);
  }

  /** While all children wait, every pipe has a writer and the first a reader. */
  lemma {:induction false} WaitingHolds(c: Chain, s: State, holder: nat)
    requires Wired(c) && holder < |c.programs| && WriteEnd(0) in c.ends[holder]
    requires Shaped(c, s) && Waiting(c, s)
    ensures Holds(c, s, ReadEnd(0))
    ensures forall i: nat | i <= |c.programs| :: Holds(c, s, WriteEnd(i))
  {
    assert Live(s.children[0]) && Live(s.children[holder]);
    forall i: nat | i <= |c.programs|
      ensures Holds(c, s, WriteEnd(i))
    {
      if i > 0 {
        assert Live(s.children[i - 1]) && WriteEnd(i) in c.ends[i - 1];
      }
    }
  }

  lemma {:induction false} RunWaits(c: Chain, s: State, run: seq<Action>, holder: nat)
    requires Wired(c) && holder < |c.programs| && WriteEnd(0) in c.ends[holder] && Hungry(c)
    requires Shaped(c, s) && Waiting(c, s) && Execute(c, s, run).Some?
    ensures Waiting(c, Execute(c, s, run).value)
    decreases |run|
  {
    hide Wired, Waiting, Hungry, Enabled, Apply;
    if run != [] {
      WaitingStays(c, s, run[0], holder);
      RunWaits(c, Apply(c, s, run[0]), run[1..], holder);
    }
  }

  /** No run of a starved chain ever ends, whatever the capacities, the chunks and the interleaving. */
  lemma {:induction false} StarvedNeverEnds(c: Chain, holder: nat, run: seq<Action>)
    requires Wired(c) && holder < |c.programs| && WriteEnd(0) in c.ends[holder] && Hungry(c)
    requires Execute(c, Start(c), run).Some?
    ensures !Ended(Execute(c, Start(c), run).value)
  {
    hide Hungry, Execute;
    RunWaits(c, Start(c), run, holder);
  }

  lemma {:induction false} StarvedHangs(c: Chain, holder: nat)
    requires Wired(c) && holder < |c.programs| && WriteEnd(0) in c.ends[holder] && Hungry(c)
    ensures CanHang(c)
  {
    hide Reachable, Enabled, Hungry;
    StarvedIsStuck(c, holder);
    ReachHangs(c, Starved(c));
  }
}
