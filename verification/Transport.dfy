/** The processes of a sandboxed run as a concurrent step system. The host feeds a chain of child
    processes through bounded pipes and drains the last one: one child in Mode A, two in Mode B. */
module Transport {
  import opened Bytes

  /** One end of one pipe. Pipe 0 is fed by the host, pipe i+1 by child i; the last one reaches the host. */
  datatype End = ReadEnd(pipe: nat) | WriteEnd(pipe: nat)

  /** What a child decides from the bytes it has received: ask for more, start writing, or give up. */
  datatype Verdict = More | Done(output: seq<byte>) | Bad

  /** A run's fixed part: pipe capacities, the children's programs, what each child makes of an input that
      ends while it wants more, the pipe ends each child holds from its start to its exit (inherited copies
      included), and the host's stream. */
  datatype Chain = Chain(
    capacity: seq<nat>,
    programs: seq<seq<byte> -> Verdict>,
    atEof: seq<seq<byte> -> Verdict>,
    ends: seq<set<End>>,
    stream: seq<byte>)

  datatype Child =
    | Reading(got: seq<byte>)
    | Writing(got: seq<byte>, left: seq<byte>)
    | Exited(got: seq<byte>)
    | Failed(got: seq<byte>)

  datatype Host =
    | Feeding(left: seq<byte>)
    | Draining(report: seq<byte>)
    | Reaping(report: seq<byte>, next: nat)
    | Finished(report: seq<byte>)
    | ReaderFailed(report: seq<byte>)

  datatype State = State(host: Host, hostEnds: set<End>, pipes: seq<seq<byte>>, children: seq<Child>)

  /** Reads and writes move any positive number of bytes. */
  datatype Action =
    | HostWrite(k: nat) | HostBroken | HostClose | HostRead(k: nat) | HostEof | HostReap
    | ChildRead(i: nat, k: nat) | ChildEof(i: nat) | ChildDecide(i: nat)
    | ChildWrite(i: nat, k: nat) | ChildBroken(i: nat) | ChildExit(i: nat)

  predicate Live(p: Child) {
    p.Reading? || p.Writing?
  }

  ghost predicate Shaped(c: Chain, s: State) {
    && |c.ends| == |c.programs| == |c.atEof| == |s.children|
    && |c.capacity| == |s.pipes| == |c.programs| + 1
  }

  ghost predicate Holds(c: Chain, s: State, e: End)
    requires Shaped(c, s)
  {
    e in s.hostEnds || exists i: nat :: i < |s.children| && Live(s.children[i]) && e in c.ends[i]
  }

  ghost predicate Enabled(c: Chain, s: State, a: Action)
    requires Shaped(c, s)
  {
    var m := |c.programs|;
    match a
    case HostWrite(k) =>
      s.host.Feeding? && 0 < k <= |s.host.left| && |s.pipes[0]| + k <= c.capacity[0]
      && Holds(c, s, ReadEnd(0))
    case HostBroken => s.host.Feeding? && s.host.left != [] && !Holds(c, s, ReadEnd(0))
    case HostClose => s.host.Feeding? && s.host.left == []
    case HostRead(k) => s.host.Draining? && 0 < k <= |s.pipes[m]|
    case HostEof => s.host.Draining? && s.pipes[m] == [] && !Holds(c, s, WriteEnd(m))
    case HostReap =>
      s.host.Reaping? && (s.host.next < m ==> !Live(s.children[s.host.next]))
    case ChildRead(i, k) =>
      i < m && s.children[i].Reading? && c.programs[i](s.children[i].got).More?
      && 0 < k <= |s.pipes[i]|
    case ChildEof(i) =>
      i < m && s.children[i].Reading? && c.programs[i](s.children[i].got).More?
      && s.pipes[i] == [] && !Holds(c, s, WriteEnd(i))
    case ChildDecide(i) =>
      i < m && s.children[i].Reading? && !c.programs[i](s.children[i].got).More?
    case ChildWrite(i, k) =>
      i < m && s.children[i].Writing? && 0 < k <= |s.children[i].left|
      && |s.pipes[i + 1]| + k <= c.capacity[i + 1] && Holds(c, s, ReadEnd(i + 1))
    case ChildBroken(i) =>
      i < m && s.children[i].Writing? && s.children[i].left != [] && !Holds(c, s, ReadEnd(i + 1))
    case ChildExit(i) => i < m && s.children[i].Writing? && s.children[i].left == []
  }

  function Decided(got: seq<byte>, v: Verdict): Child {
    match v
    case Done(out) => Writing(got, out)
    case _ => Failed(got)
  }

  ghost function Apply(c: Chain, s: State, a: Action): (t: State)
    requires Shaped(c, s) && Enabled(c, s, a)
    ensures Shaped(c, t)
  {
    var m := |c.programs|;
    match a
    case HostWrite(k) =>
      s.(host := Feeding(s.host.left[k..]), pipes := s.pipes[0 := s.pipes[0] + s.host.left[..k]])
    case HostBroken => s.(host := ReaderFailed([]), hostEnds := {})
    case HostClose => s.(host := Draining([]), hostEnds := s.hostEnds - {WriteEnd(0)})
    case HostRead(k) =>
      s.(host := Draining(s.host.report + s.pipes[m][..k]), pipes := s.pipes[m := s.pipes[m][k..]])
    case HostEof => s.(host := Reaping(s.host.report, 0))
    case HostReap =>
      if s.host.next < m then s.(host := s.host.(next := s.host.next + 1))
      else if exists i: nat :: i < m && s.children[i].Failed? then s.(host := ReaderFailed(s.host.report))
      else s.(host := Finished(s.host.report))
    case ChildRead(i, k) =>
      s.(children := s.children[i := Reading(s.children[i].got + s.pipes[i][..k])],
         pipes := s.pipes[i := s.pipes[i][k..]])
    case ChildEof(i) =>
      s.(children := s.children[i := Decided(s.children[i].got, c.atEof[i](s.children[i].got))])
    case ChildDecide(i) =>
      s.(children := s.children[i := Decided(s.children[i].got, c.programs[i](s.children[i].got))])
    case ChildWrite(i, k) =>
      var p := s.children[i];
      s.(children := s.children[i := Writing(p.got, p.left[k..])],
         pipes := s.pipes[i + 1 := s.pipes[i + 1] + p.left[..k]])
    case ChildBroken(i) => s.(children := s.children[i := Failed(s.children[i].got)])
    case ChildExit(i) => s.(children := s.children[i := Exited(s.children[i].got)])
  }

  /** A finite run from `s`, if every action of it is enabled in turn. */
  ghost function Execute(c: Chain, s: State, run: seq<Action>): (t: Option<State>)
    requires Shaped(c, s)
    ensures t.Some? ==> Shaped(c, t.value)
    decreases |run|
  {
    if run == [] then Some(s)
    else if !Enabled(c, s, run[0]) then None
    else Execute(c, Apply(c, s, run[0]), run[1..])
  }

  /** All processes have been started and the host has dropped every end it does not use. */
  function Start(c: Chain): State {
    State(Feeding(c.stream), {WriteEnd(0), ReadEnd(|c.programs|)},
          seq(|c.programs| + 1, i => []), seq(|c.programs|, i => Reading([])))
  }

  // ---------------------------------------------------------------- what a chain should compute

  /** What should travel through pipe `i`. */
  function Flow(c: Chain, i: nat): seq<byte>
    requires i <= |c.programs|
  {
    if i == 0 then c.stream
    else match c.programs[i - 1](Flow(c, i - 1))
      case Done(out) => out
      case _ => []
  }

  /** A run in which no process has a reason to fail: every child asks for more until it has exactly its
      input, and then produces its output. */
  ghost predicate ErrorFree(c: Chain) {
    forall i: nat | i < |c.programs| ::
      && c.programs[i](Flow(c, i)).Done?
      && forall k: nat | k < |Flow(c, i)| :: c.programs[i](Flow(c, i)[..k]).More?
  }

  /** There is a child, every pipe can hold a byte, and every child holds the two ends it works on. What
      else it holds is arbitrary. */
  ghost predicate Wired(c: Chain) {
    && |c.ends| == |c.atEof| == |c.programs| > 0 && |c.capacity| == |c.programs| + 1
    && (forall i: nat | i <= |c.programs| :: c.capacity[i] > 0)
    && (forall i: nat | i < |c.programs| :: ReadEnd(i) in c.ends[i] && WriteEnd(i + 1) in c.ends[i])
  }

  // ---------------------------------------------------------------- the invariant

  function HostGot(h: Host): seq<byte> {
    match h
    case Feeding(_) => []
    case Draining(r) => r
    case Reaping(r, _) => r
    case Finished(r) => r
    case ReaderFailed(r) => r
  }

  /** Bytes that have left pipe `i` at its far end. */
  function Got(c: Chain, s: State, i: nat): seq<byte>
    requires i <= |s.children|
  {
    if i == |s.children| then HostGot(s.host) else s.children[i].got
  }

  /** Bytes that still have to enter pipe `i`. */
  function Left(c: Chain, s: State, i: nat): seq<byte>
    requires i <= |s.children| == |c.programs|
  {
    if i == 0 then (if s.host.Feeding? then s.host.left else [])
    else match s.children[i - 1]
      case Reading(_) => Flow(c, i)
      case Writing(_, left) => left
      case _ => []
  }

  /** Nothing is lost, duplicated or reordered on pipe `i`. */
  ghost predicate Conserved(c: Chain, s: State, i: nat)
    requires Shaped(c, s) && i <= |c.programs|
  {
    Got(c, s, i) + s.pipes[i] + Left(c, s, i) == Flow(c, i) && |s.pipes[i]| <= c.capacity[i]
  }

  ghost predicate ChildInv(c: Chain, s: State, i: nat)
    requires Shaped(c, s) && i < |c.programs|
  {
    var p := s.children[i];
    !p.Failed? && (!p.Reading? ==> p.got == Flow(c, i))
  }

  ghost predicate HostInv(c: Chain, s: State)
    requires Shaped(c, s)
  {
    var m := |c.programs|;
    && !s.host.ReaderFailed?
    && s.hostEnds == (if s.host.Feeding? then {WriteEnd(0)} else {}) + {ReadEnd(m)}
    && (s.host.Reaping? || s.host.Finished? ==> s.host.report == Flow(c, m))
    && (s.host.Reaping? ==> s.host.next <= m && forall i: nat | i < s.host.next :: s.children[i].Exited?)
    && (s.host.Finished? ==> forall i: nat | i < m :: s.children[i].Exited?)
  }

  ghost predicate Inv(c: Chain, s: State) {
    && Shaped(c, s)
    && (forall i: nat | i <= |c.programs| :: Conserved(c, s, i))
    && (forall i: nat | i < |c.programs| :: ChildInv(c, s, i))
    && HostInv(c, s)
  }

  lemma {:induction false} StartInv(c: Chain)
    requires Wired(c)
    ensures Inv(c, Start(c))
  {
  }

  /** Either a child has everything, or it asks for more and its pipe or its upstream holds the rest. */
  lemma {:induction false} ChildProgress(c: Chain, s: State, i: nat)
    requires ErrorFree(c) && Inv(c, s) && i < |c.programs| && s.children[i].Reading?
    ensures var got := s.children[i].got;
            if got == Flow(c, i) then c.programs[i](got).Done? && s.pipes[i] == [] && Left(c, s, i) == []
            else c.programs[i](got).More? && (s.pipes[i] != [] || Left(c, s, i) != [])
  {
    assert Conserved(c, s, i);
    var got, all := s.children[i].got, Flow(c, i);
    assert got == all[..|got|];
    if |got| == |all| {
      assert got == all;
    }
  }

  /** While a child asks for more and its pipe is empty, that pipe has a writer. */
  lemma {:induction false} NoPrematureEof(c: Chain, s: State, i: nat)
    requires Wired(c) && ErrorFree(c) && Inv(c, s)
    ensures !Enabled(c, s, ChildEof(i))
  {
    hide Conserved, HostInv, ChildInv, Wired, ErrorFree, Flow, Got;
    if i < |c.programs| && s.children[i].Reading? && s.pipes[i] == []
       && c.programs[i](s.children[i].got).More? {
      ChildProgress(c, s, i);
      WriterWaits(c, s, i);
    }
  }

  lemma {:induction false} WriterWaits(c: Chain, s: State, i: nat)
    requires Wired(c) && Inv(c, s) && i <= |c.programs| && Left(c, s, i) != []
    ensures Holds(c, s, WriteEnd(i))
  {
    hide Conserved, Flow;
    if i > 0 {
      assert ChildInv(c, s, i - 1);
      assert Live(s.children[i - 1]) && WriteEnd(i) in c.ends[i - 1];
    }
  }

  /** No write ever meets a pipe without a reader. */
  lemma {:induction false} NoBrokenPipe(c: Chain, s: State, i: nat)
    requires Wired(c) && ErrorFree(c) && Inv(c, s)
    ensures !Enabled(c, s, HostBroken) && !Enabled(c, s, ChildBroken(i))
  {
    hide Conserved, HostInv, ChildInv, Wired, ErrorFree, Flow, Got, Holds;
    if s.host.Feeding? && s.host.left != [] {
      ReaderWaits(c, s, 0);
    }
    if i < |c.programs| && s.children[i].Writing? && s.children[i].left != [] {
      ReaderWaits(c, s, i + 1);
    }
  }

  /** While bytes have yet to enter a pipe, its reader still holds the other end. */
  lemma {:induction false} ReaderWaits(c: Chain, s: State, i: nat)
    requires Wired(c) && ErrorFree(c) && Inv(c, s) && i <= |c.programs| && Left(c, s, i) != []
    ensures Holds(c, s, ReadEnd(i))
    ensures i < |c.programs| ==> s.children[i].Reading? && s.children[i].got != Flow(c, i)
  {
    assert Conserved(c, s, i);
    if i < |c.programs| {
      assert ChildInv(c, s, i);
      assert |Got(c, s, i)| < |Flow(c, i)|;
      assert Live(s.children[i]) && ReadEnd(i) in c.ends[i];
    }
  }

  // ---------------------------------------------------------------- every step keeps the invariant

  lemma {:induction false} MoveBytes(x: seq<byte>, y: seq<byte>, z: seq<byte>, k: nat)
    ensures k <= |y| ==> (x + y[..k]) + y[k..] + z == x + y + z
    ensures k <= |z| ==> x + (y + z[..k]) + z[k..] == x + y + z
  {
    if k <= |y| {
      assert y[..k] + y[k..] == y;
    }
    if k <= |z| {
      assert z[..k] + z[k..] == z;
    }
  }

  lemma {:induction false} HostStepConserves(c: Chain, s: State, a: Action, i: nat)
    requires Inv(c, s) && Enabled(c, s, a) && i <= |c.programs|
    requires a.HostWrite? || a.HostClose? || a.HostRead? || a.HostEof? || a.HostReap?
    ensures Conserved(c, Apply(c, s, a), i)
  {
    hide Holds, ChildInv, Flow;
    assert Conserved(c, s, i);
    if a.HostWrite? || a.HostRead? {
      MoveBytes(Got(c, s, i), s.pipes[i], Left(c, s, i), a.k);
    }
  }

  lemma {:induction false} HostStepHost(c: Chain, s: State, a: Action)
    requires Wired(c) && Inv(c, s) && Enabled(c, s, a)
    requires a.HostWrite? || a.HostClose? || a.HostRead? || a.HostEof? || a.HostReap?
    ensures HostInv(c, Apply(c, s, a))
  {
    hide Wired, Holds, Flow, Conserved;
    if a.HostEof? {
      AllDelivered(c, s);
    } else if a.HostReap? && s.host.next < |c.programs| {
      assert ChildInv(c, s, s.host.next);
    } else if a.HostReap? {
      assert forall i: nat | i < |c.programs| :: ChildInv(c, s, i);
    }
  }

  lemma {:induction false} HostStep(c: Chain, s: State, a: Action)
    requires Wired(c) && Inv(c, s) && Enabled(c, s, a)
    requires a.HostWrite? || a.HostClose? || a.HostRead? || a.HostEof? || a.HostReap?
    ensures Inv(c, Apply(c, s, a))
  {
    hide Wired, Flow, Holds, Conserved, HostInv;
    var t := Apply(c, s, a);
    forall i: nat | i <= |c.programs|
      ensures Conserved(c, t, i)
    {
      HostStepConserves(c, s, a, i);
    }
    forall i: nat | i < |c.programs|
      ensures ChildInv(c, t, i)
    {
      assert ChildInv(c, s, i);
    }
    HostStepHost(c, s, a);
  }

  /** End of file on the last pipe: everything meant for the host has arrived. */
  lemma {:induction false} AllDelivered(c: Chain, s: State)
    requires Wired(c) && Inv(c, s) && Enabled(c, s, HostEof)
    ensures s.host.report == Flow(c, |c.programs|)
  {
    hide Flow;
    var m := |c.programs|;
    assert Conserved(c, s, m);
    if Left(c, s, m) != [] {
      WriterWaits(c, s, m);
    }
  }

  lemma {:induction false} ChildStep(c: Chain, s: State, a: Action)
    requires Wired(c) && ErrorFree(c) && Inv(c, s) && Enabled(c, s, a)
    requires a.ChildRead? || a.ChildDecide? || a.ChildWrite? || a.ChildExit?
    ensures Inv(c, Apply(c, s, a))
  {
    hide Wired, Holds;
    var m, t := |c.programs|, Apply(c, s, a);
    if a.ChildDecide? {
      ChildProgress(c, s, a.i);
    }
    hide ErrorFree;
    forall i: nat | i <= m
      ensures Conserved(c, t, i)
    {
      ChildStepConserves(c, s, a, i);
    }
    forall i: nat | i < m
      ensures ChildInv(c, t, i)
    {
      assert ChildInv(c, s, i);
    }
  }

  lemma {:induction false} ChildStepConserves(c: Chain, s: State, a: Action, i: nat)
    requires Inv(c, s) && Enabled(c, s, a) && i <= |c.programs|
    requires a.ChildRead? || a.ChildDecide? || a.ChildWrite? || a.ChildExit?
    requires a.ChildDecide? ==> c.programs[a.i](s.children[a.i].got) == Done(Flow(c, a.i + 1))
    ensures Conserved(c, Apply(c, s, a), i)
  {
    hide Holds, ChildInv, HostInv, Flow, Conserved;
    assert Conserved(c, s, i);
    if a.ChildRead? {
      ChildReadConserves(c, s, a.i, a.k, i);
    } else if a.ChildWrite? {
      ChildWriteConserves(c, s, a.i, a.k, i);
    } else {
      ChildTurnConserves(c, s, a, i);
    }
  }

  lemma {:induction false} ChildReadConserves(c: Chain, s: State, j: nat, k: nat, i: nat)
    requires Shaped(c, s) && i <= |c.programs| && Conserved(c, s, i) && Enabled(c, s, ChildRead(j, k))
    ensures Conserved(c, Apply(c, s, ChildRead(j, k)), i)
  {
    hide Holds, Flow;
    MoveBytes(Got(c, s, i), s.pipes[i], Left(c, s, i), k);
  }

  lemma {:induction false} ChildWriteConserves(c: Chain, s: State, j: nat, k: nat, i: nat)
    requires Shaped(c, s) && i <= |c.programs| && Conserved(c, s, i) && Enabled(c, s, ChildWrite(j, k))
    ensures Conserved(c, Apply(c, s, ChildWrite(j, k)), i)
  {
    hide Holds, Flow;
    MoveBytes(Got(c, s, i), s.pipes[i], Left(c, s, i), k);
  }

  lemma {:induction false} ChildTurnConserves(c: Chain, s: State, a: Action, i: nat)
    requires Shaped(c, s) && i <= |c.programs| && Conserved(c, s, i) && Enabled(c, s, a)
    requires a.ChildDecide? || a.ChildExit?
    requires a.ChildDecide? ==> c.programs[a.i](s.children[a.i].got) == Done(Flow(c, a.i + 1))
    ensures Conserved(c, Apply(c, s, a), i)
  {
    hide Holds, Flow;
  }

  lemma {:induction false} StepInv(c: Chain, s: State, a: Action)
    requires Wired(c) && ErrorFree(c) && Inv(c, s) && Enabled(c, s, a)
    ensures Inv(c, Apply(c, s, a))
  {
    hide Wired, ErrorFree, Inv, Enabled, Apply;
    match a
    case HostBroken => NoBrokenPipe(c, s, 0);
    case ChildBroken(i) => NoBrokenPipe(c, s, i);
    case ChildEof(i) => NoPrematureEof(c, s, i);
    case ChildRead(_, _) => ChildStep(c, s, a);
    case ChildDecide(_) => ChildStep(c, s, a);
    case ChildWrite(_, _) => ChildStep(c, s, a);
    case ChildExit(_) => ChildStep(c, s, a);
    case _ => HostStep(c, s, a);
  }

  // ---------------------------------------------------------------- progress

  /** A child that has not exited, below which all have: the run can move it or its downstream. */
  lemma {:induction false} LowestLiveMoves(c: Chain, s: State, i: nat) returns (a: Action)
    requires Wired(c) && ErrorFree(c) && Inv(c, s) && !s.host.Feeding?
    requires i < |c.programs| && Live(s.children[i])
    requires forall j: nat | j < i :: s.children[j].Exited?
    requires !s.host.Draining? ==> s.pipes[|c.programs|] == []
    ensures Enabled(c, s, a)
  {
    hide HostInv, ChildInv, Flow, Conserved, ErrorFree, Holds;
    var m := |c.programs|;
    if s.children[i].Reading? {
      ChildProgress(c, s, i);
      if c.programs[i](s.children[i].got).More? {
        assert Left(c, s, i) == [];
        a := ChildRead(i, |s.pipes[i]|);
      } else {
        a := ChildDecide(i);
      }
    } else if s.children[i].left == [] {
      a := ChildExit(i);
    } else {
      ReaderWaits(c, s, i + 1);
      if |s.pipes[i + 1]| < c.capacity[i + 1] {
        a := ChildWrite(i, 1);
      } else if i + 1 == m {
        a := HostRead(|s.pipes[m]|);
      } else {
        ChildProgress(c, s, i + 1);
        a := ChildRead(i + 1, |s.pipes[i + 1]|);
      }
    }
  }

  lemma {:induction false} FirstLive(s: State) returns (i: nat)
    ensures i <= |s.children| && forall j: nat | j < i :: !Live(s.children[j])
    ensures i < |s.children| ==> Live(s.children[i])
  {
    i := 0;
    while i < |s.children| && !Live(s.children[i])
      invariant i <= |s.children| && forall j: nat | j < i :: !Live(s.children[j])
    {
      i := i + 1;
    }
  }

  lemma {:induction false} HostFeeds(c: Chain, s: State) returns (a: Action)
    requires Wired(c) && ErrorFree(c) && Inv(c, s) && s.host.Feeding?
    ensures Enabled(c, s, a)
  {
    hide HostInv, ChildInv, Flow, ErrorFree, Holds;
    assert Conserved(c, s, 0);
    if s.host.left == [] {
      a := HostClose;
    } else {
      ReaderWaits(c, s, 0);
      if |s.pipes[0]| < c.capacity[0] {
        a := HostWrite(1);
      } else {
        ChildProgress(c, s, 0);
        a := ChildRead(0, |s.pipes[0]|);
      }
    }
  }

  /** Deadlock freedom: as long as the host has not finished, some process can take a step. */
  lemma {:induction false} Progress(c: Chain, s: State) returns (a: Action)
    requires Wired(c) && ErrorFree(c) && Inv(c, s) && !s.host.Finished?
    ensures Enabled(c, s, a)
  {
    if s.host.Feeding? {
      a := HostFeeds(c, s);
      return;
    }
    hide Wired, ErrorFree, Flow;
    var m := |c.programs|;
    if s.host.Draining? && s.pipes[m] != [] {
      return HostRead(|s.pipes[m]|);
    }
    var i := FirstLive(s);
    forall j: nat | j < i
      ensures s.children[j].Exited?
    {
      assert ChildInv(c, s, j);
    }
    if i < m {
      if !s.host.Draining? {
        assert Conserved(c, s, m);
      }
      a := LowestLiveMoves(c, s, i);
    } else if s.host.Draining? {
      a := HostEof;
    } else {
      a := HostReap;
    }
  }

  // ---------------------------------------------------------------- termination

  function Total(xs: seq<nat>): nat {
    if xs == [] then 0 else xs[0] + Total(xs[1..])
  }

  lemma {:induction false} TotalUpdate(xs: seq<nat>, i: nat, x: nat)
    requires i < |xs|
    ensures Total(xs[i := x]) + xs[i] == Total(xs) + x
  {
    if i > 0 {
      assert xs[i := x][1..] == xs[1..][i - 1 := x];
      TotalUpdate(xs[1..], i - 1, x);
    } else {
      assert xs[i := x][1..] == xs[1..];
    }
  }

  function HostWork(c: Chain, h: Host): nat {
    match h
    case Feeding(left) => 2 * |left| + |c.programs| + 4
    case Draining(_) => |c.programs| + 3
    case Reaping(_, next) => if next <= |c.programs| then |c.programs| + 2 - next else 0
    case _ => 0
  }

  function ChildWork(c: Chain, p: Child, i: nat): nat
    requires i < |c.programs|
  {
    match p
    case Reading(_) => 2 * |Flow(c, i + 1)| + 2
    case Writing(_, left) => 2 * |left| + 1
    case _ => 0
  }

  function PipeWork(s: State): seq<nat> {
    seq(|s.pipes|, i requires 0 <= i < |s.pipes| => |s.pipes[i]|)
  }

  function ChildrenWork(c: Chain, s: State): seq<nat>
    requires |s.children| == |c.programs|
  {
    seq(|s.children|, i requires 0 <= i < |s.children| => ChildWork(c, s.children[i], i))
  }

  /** The steps a run has left, at most: every byte counts once per move still ahead of it. */
  function Measure(c: Chain, s: State): nat
    requires |s.children| == |c.programs|
  {
    HostWork(c, s.host) + Total(PipeWork(s)) + Total(ChildrenWork(c, s))
  }

  lemma {:induction false} PipeUpdate(s: State, t: State, i: nat, x: seq<byte>)
    requires i < |s.pipes| && t.pipes == s.pipes[i := x]
    ensures Total(PipeWork(t)) + |s.pipes[i]| == Total(PipeWork(s)) + |x|
  {
    assert PipeWork(t) == PipeWork(s)[i := |x|];
    TotalUpdate(PipeWork(s), i, |x|);
  }

  lemma {:induction false} ChildUpdate(c: Chain, s: State, t: State, i: nat, p: Child)
    requires |s.children| == |c.programs| && i < |s.children| && t.children == s.children[i := p]
    ensures Total(ChildrenWork(c, t)) + ChildWork(c, s.children[i], i)
         == Total(ChildrenWork(c, s)) + ChildWork(c, p, i)
  {
    assert ChildrenWork(c, t) == ChildrenWork(c, s)[i := ChildWork(c, p, i)];
    TotalUpdate(ChildrenWork(c, s), i, ChildWork(c, p, i));
  }

  /** Every step of an error-free run uses up some of the remaining work. */
  lemma {:induction false} StepWorks(c: Chain, s: State, a: Action)
    requires Wired(c) && ErrorFree(c) && Inv(c, s) && Enabled(c, s, a)
    ensures Measure(c, Apply(c, s, a)) < Measure(c, s)
  {
    hide ErrorFree, Conserved, ChildInv, HostInv, Enabled, Apply, Measure;
    match a
    case HostBroken => NoBrokenPipe(c, s, 0);
    case ChildBroken(i) => NoBrokenPipe(c, s, i);
    case ChildEof(i) => NoPrematureEof(c, s, i);
    case ChildRead(_, _) => ChildStepWorks(c, s, a);
    case ChildWrite(_, _) => ChildStepWorks(c, s, a);
    case ChildExit(_) => ChildStepWorks(c, s, a);
    case ChildDecide(i) =>
      DecidesFlow(c, s, i);
      ChildStepWorks(c, s, a);
    case _ => HostStepWorks(c, s, a);
  }

  lemma {:induction false} HostStepWorks(c: Chain, s: State, a: Action)
    requires Inv(c, s) && |c.programs| > 0 && Enabled(c, s, a)
    requires a.HostWrite? || a.HostClose? || a.HostRead? || a.HostEof? || a.HostReap?
    ensures Measure(c, Apply(c, s, a)) < Measure(c, s)
  {
    hide Conserved, ChildInv, Holds, Total, PipeWork, ChildrenWork, Flow;
    var m, t := |c.programs|, Apply(c, s, a);
    SameWork(c, s, t);
    if a.HostWrite? {
      PipeUpdate(s, t, 0, t.pipes[0]);
    } else if a.HostRead? {
      PipeUpdate(s, t, m, t.pipes[m]);
    }
  }

  lemma {:induction false} ChildStepWorks(c: Chain, s: State, a: Action)
    requires Shaped(c, s) && Enabled(c, s, a)
    requires a.ChildRead? || a.ChildDecide? || a.ChildWrite? || a.ChildExit?
    requires a.ChildDecide? ==> c.programs[a.i](s.children[a.i].got) == Done(Flow(c, a.i + 1))
    ensures Measure(c, Apply(c, s, a)) < Measure(c, s)
  {
    hide Holds, Total, PipeWork, ChildrenWork, Flow;
    var t := Apply(c, s, a);
    SameWork(c, s, t);
    ChildUpdate(c, s, t, a.i, t.children[a.i]);
    if a.ChildRead? {
      PipeUpdate(s, t, a.i, t.pipes[a.i]);
    } else if a.ChildWrite? {
      PipeUpdate(s, t, a.i + 1, t.pipes[a.i + 1]);
    }
  }

  lemma {:induction false} SameWork(c: Chain, s: State, t: State)
    requires |s.children| == |t.children| == |c.programs|
    ensures t.pipes == s.pipes ==> PipeWork(t) == PipeWork(s)
    ensures t.children == s.children ==> ChildrenWork(c, t) == ChildrenWork(c, s)
  {
  }

  lemma {:induction false} DecidesFlow(c: Chain, s: State, i: nat)
    requires ErrorFree(c) && Inv(c, s) && Enabled(c, s, ChildDecide(i))
    ensures c.programs[i](s.children[i].got) == Done(Flow(c, i + 1))
  {
    ChildProgress(c, s, i);
  }

  // ---------------------------------------------------------------- whole runs

  lemma {:induction false} RunInv(c: Chain, s: State, run: seq<Action>)
    requires Wired(c) && ErrorFree(c) && Inv(c, s) && Execute(c, s, run).Some?
    ensures Inv(c, Execute(c, s, run).value)
    ensures |run| + Measure(c, Execute(c, s, run).value) <= Measure(c, s)
    decreases |run|
  {
    hide Wired, ErrorFree, Conserved, ChildInv, HostInv, Enabled, Apply, Measure;
    if run != [] {
      StepInv(c, s, run[0]);
      StepWorks(c, s, run[0]);
      RunInv(c, Apply(c, s, run[0]), run[1..]);
    }
  }

  /** Every interleaving of an error-free run is safe, bounded and never stuck, and one that cannot be
      extended has delivered: every child consumed exactly its input, and the host holds exactly the
      last child's output. */
  lemma {:induction false} EveryRunDelivers(c: Chain, run: seq<Action>)
    requires Wired(c) && ErrorFree(c) && Execute(c, Start(c), run).Some?
    ensures var s := Execute(c, Start(c), run).value;
            && |run| <= Measure(c, Start(c))
            && !s.host.ReaderFailed? && (forall i: nat | i < |s.children| :: !s.children[i].Failed?)
            && (s.host.Finished? || exists a :: Enabled(c, s, a))
            && (s.host.Finished? ==>
                  && s.host.report == Flow(c, |c.programs|)
                  && forall i: nat | i < |s.children| :: s.children[i] == Exited(Flow(c, i)))
  {
    hide Enabled, Measure, Wired, ErrorFree, Flow, Conserved;
    StartInv(c);
    RunInv(c, Start(c), run);
    var s := Execute(c, Start(c), run).value;
    if !s.host.Finished? {
      var a := Progress(c, s);
    }
    forall i: nat | i < |s.children|
      ensures !s.children[i].Failed?
      ensures s.host.Finished? ==> s.children[i] == Exited(Flow(c, i))
    {
      assert ChildInv(c, s, i);
    }
  }
}
