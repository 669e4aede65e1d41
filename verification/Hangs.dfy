/** Exactly when a run can hang, for one child and for two, at any capacity: hung states are taken apart, and
    for each kind that remains a run is built that reaches one. */
module Hangs {
  import opened Bytes
  import opened Transport
  import opened Safety
  import opened Stalls

  /** The first child wants more of every prefix of the stream shorter than `v`, and from `v` on makes of each
      what it makes of the whole. */
  ghost predicate Steady(c: Chain, v: nat)
    requires |c.programs| > 0
  {
    && 0 < v <= |c.stream|
    && (forall n: nat | n < v :: c.programs[0](c.stream[..n]).More?)
    && (forall n: nat | v <= n <= |c.stream| :: c.programs[0](c.stream[..n]) == c.programs[0](c.stream))
  }

  lemma {:induction false} SteadyAt(c: Chain, v: nat, got: seq<byte>)
    requires |c.programs| > 0 && Steady(c, v) && got <= c.stream
    ensures 0 < v && (|got| < v ==> c.programs[0](got).More?)
    ensures v <= |got| ==> c.programs[0](got) == c.programs[0](c.stream)
  {
    assert got == c.stream[..|got|];
  }

  // ---------------------------------------------------------------- how far the first child reads

  /** A read takes no more than the first pipe holds, and none follows the verdict. */
  lemma {:induction false} StepStaysShort(c: Chain, s: State, a: Action, v: nat)
    requires Safe(c, s) && Steady(c, v) && !c.programs[0](c.stream).More? && Enabled(c, s, a)
    requires |s.children[0].got| < v + c.capacity[0]
    ensures |Apply(c, s, a).children[0].got| < v + c.capacity[0]
  {
    hide Holds, Steady, ChildSafe, HostSafe;
    assert PipeSafe(c, s, 0);
    SteadyAt(c, v, s.children[0].got);
  }

  lemma {:induction false} RunStaysShort(c: Chain, s: State, run: seq<Action>, v: nat)
    requires Wired(c) && Safe(c, s) && Steady(c, v) && !c.programs[0](c.stream).More?
    requires |s.children[0].got| < v + c.capacity[0] && Execute(c, s, run).Some?
    ensures |Execute(c, s, run).value.children[0].got| < v + c.capacity[0]
    decreases |run|
  {
    hide Steady, PipeSafe, ChildSafe, HostSafe, Enabled, Apply;
    if run != [] {
      StepStaysShort(c, s, run[0], v);
      StepSafe(c, s, run[0]);
      RunStaysShort(c, Apply(c, s, run[0]), run[1..], v);
    }
  }

  /** A hung state that a run reaches keeps what every run keeps. */
  lemma {:induction false} HungIsSafe(c: Chain, v: nat) returns (s: State)
    requires CanHang(c) && Steady(c, v)
    ensures Safe(c, s) && Hung(c, s)
    ensures !c.programs[0](c.stream).More? ==> |s.children[0].got| < v + c.capacity[0]
  {
    hide Hung, PipeSafe, ChildSafe, HostSafe, Steady;
    var run :| Execute(c, Start(c), run).Some? && Hung(c, Execute(c, Start(c), run).value);
    s := Execute(c, Start(c), run).value;
    StartSafe(c);
    RunSafe(c, Start(c), run);
    SteadyAt(c, v, []);
    if !c.programs[0](c.stream).More? {
      RunStaysShort(c, Start(c), run, v);
    }
  }

  // ---------------------------------------------------------------- one child

  /** A hung run of a single child, taken apart: it waits for an end of file that it keeps from coming itself,
      or it writes a report while the host, which would read it, still feeds. */
  lemma {:induction false} HungAlone(c: Chain, s: State, v: nat)
    requires Wired(c) && Safe(c, s) && Hung(c, s) && |c.programs| == 1 && Steady(c, v)
    ensures var p := c.programs[0](c.stream);
            || (p.More? && WriteEnd(0) in c.ends[0])
            || (p.Done? && |c.stream| > v + c.capacity[0] && |p.output| > c.capacity[1])
  {
    hide Holds, PipeSafe, ChildSafe, Steady, Hung;
    if s.host.Feeding? {
      HungFeeding(c, s);
      SteadyAt(c, v, s.children[0].got);
      var i := SomeHolder(c, s, ReadEnd(0));
      HungWriter(c, s, 0);
      WritesOutput(c, s, 0);
    } else {
      var i := HungClosed(c, s);
      assert i == 0;
      if s.children[0].Writing? {
        HungWriter(c, s, 0);
      } else {
        ClosedReader(c, s);
      }
    }
  }

  /** A child that decided before its input ended still has to write what its reader has not got. */
  lemma {:induction false} WritesOutput(c: Chain, s: State, i: nat)
    requires Safe(c, s) && i < |c.programs| && s.children[i].Writing? && !c.programs[i](s.children[i].got).More?
    ensures c.programs[i](s.children[i].got).Done?
    ensures Got(c, s, i + 1) + s.pipes[i + 1] + s.children[i].left == c.programs[i](s.children[i].got).output
  {
    hide Holds;
    assert PipeSafe(c, s, i + 1) && ChildSafe(c, s, i);
  }

  /** In a hung state whose host has closed, a first child that still reads wants more than the whole stream. */
  lemma {:induction false} ClosedReader(c: Chain, s: State)
    requires Wired(c) && Safe(c, s) && Hung(c, s) && !s.host.Feeding? && s.children[0].Reading?
    ensures c.programs[0](c.stream).More? && exists i: nat :: i < |c.programs| && WriteEnd(0) in c.ends[i]
  {
    hide Holds, PipeSafe, ChildSafe;
    HungReader(c, s, 0);
    GotWholeStream(c, s);
    var i := SomeHolder(c, s, WriteEnd(0));
  }

  lemma {:induction false} StarvesAll(c: Chain, v: nat)
    requires |c.programs| > 0 && Steady(c, v) && c.programs[0](c.stream).More?
    requires forall i: nat | 0 < i < |c.programs| :: c.programs[i]([]).More?
    ensures Hungry(c)
  {
  }

  /** The only child has decided at `v` and filled the report pipe; the host has filled the first one. */
  function Crossed(c: Chain, v: nat, out: seq<byte>): State
    requires |c.capacity| == 2 && v + c.capacity[0] <= |c.stream| && c.capacity[1] <= |out|
  {
    var n := v + c.capacity[0];
    State(Feeding(c.stream[n..]), {WriteEnd(0), ReadEnd(1)}, [c.stream[v..n], out[..c.capacity[1]]],
          [Writing(c.stream[..v], out[c.capacity[1]..])])
  }

  lemma {:induction false} ReachCrossed(c: Chain, v: nat)
    requires Wired(c) && |c.programs| == 1 && Steady(c, v) && c.programs[0](c.stream).Done?
    requires |c.stream| > v + c.capacity[0] && |c.programs[0](c.stream).output| > c.capacity[1]
    ensures Reachable(c, Crossed(c, v, c.programs[0](c.stream).output))
  {
    hide Reachable, Enabled, Apply;
    var out, n := c.programs[0](c.stream).output, v + c.capacity[0];
    ReachMoved(c, v);
    assert c.stream[..v] <= c.stream && c.programs[0](c.stream[..v]) == Verdict.Done(out);
    ReachDecision(c, Moved(c, v), 0);
    var s1 := State(Feeding(c.stream[v..]), {WriteEnd(0), ReadEnd(1)}, [[], []], [Writing(c.stream[..v], out)]);
    assert Moved(c, v).pipes == s1.pipes && Moved(c, v).children[0 := Writing(c.stream[..v], out)] == s1.children;
    LiveHolds(c, s1, 0, ReadEnd(0));
    ReachFill(c, s1, c.capacity[0]);
    assert c.stream[v..][..c.capacity[0]] == c.stream[v..n] && c.stream[v..][c.capacity[0]..] == c.stream[n..];
    var s2 := s1.(host := Feeding(c.stream[n..]), pipes := [c.stream[v..n], []]);
    assert s1.pipes[0 := c.stream[v..n]] == s2.pipes;
    ReachReport(c, s2, 0, c.capacity[1]);
    assert s2.pipes[1 := out[..c.capacity[1]]] == Crossed(c, v, out).pipes;
    assert s2.children[0 := Writing(c.stream[..v], out[c.capacity[1]..])] == Crossed(c, v, out).children;
  }

  /** The host writes into an empty first pipe. */
  lemma {:induction false} ReachFill(c: Chain, s: State, k: nat)
    requires Reachable(c, s) && Shaped(c, s) && s.host.Feeding? && s.pipes[0] == [] && Holds(c, s, ReadEnd(0))
    requires 0 < k <= |s.host.left| && k <= c.capacity[0]
    ensures Reachable(c, s.(host := Feeding(s.host.left[k..]), pipes := s.pipes[0 := s.host.left[..k]]))
  {
    hide Reachable, Holds;
    assert s.pipes[0] + s.host.left[..k] == s.host.left[..k];
    ReachStep(c, s, HostWrite(k));
  }

  lemma {:induction false} ReachDecision(c: Chain, s: State, i: nat)
    requires Reachable(c, s) && Shaped(c, s) && i < |c.programs| && s.children[i].Reading?
    requires !c.programs[i](s.children[i].got).More?
    ensures var got := s.children[i].got;
            Reachable(c, s.(children := s.children[i := Decided(got, c.programs[i](got))]))
  {
    hide Reachable, Holds;
    ReachStep(c, s, ChildDecide(i));
  }

  /** The last child writes into an empty report pipe, whose read end the host holds. */
  lemma {:induction false} ReachReport(c: Chain, s: State, i: nat, k: nat)
    requires Reachable(c, s) && Shaped(c, s) && i + 1 == |c.programs| && s.children[i].Writing? && s.pipes[i + 1] == []
    requires 0 < k <= |s.children[i].left| && k <= c.capacity[i + 1] && ReadEnd(i + 1) in s.hostEnds
    ensures var p := s.children[i];
            Reachable(c, s.(children := s.children[i := Writing(p.got, p.left[k..])],
                            pipes := s.pipes[i + 1 := p.left[..k]]))
  {
    hide Reachable;
    assert s.pipes[i + 1] + s.children[i].left[..k] == s.children[i].left[..k];
    ReachStep(c, s, ChildWrite(i, k));
  }

  lemma {:induction false} CrossedHangs(c: Chain, v: nat, out: seq<byte>)
    requires Wired(c) && |c.programs| == 1 && |c.stream| > v + c.capacity[0] && |out| > c.capacity[1]
    ensures Hung(c, Crossed(c, v, out))
  {
    var s := Crossed(c, v, out);
    LiveHolds(c, s, 0, ReadEnd(0));
    assert Holds(c, s, ReadEnd(1));
    assert |s.pipes[0]| == c.capacity[0] && |s.pipes[1]| == c.capacity[1];
  }

  /** A single child can hang exactly in two cases. Either it wants more than the whole stream and itself holds
      a write end of its input; or it accepts early, with more of the stream to come than the pipe takes and a
      report longer than the other pipe takes. */
  lemma {:induction false} AloneHangs(c: Chain, v: nat)
    requires Wired(c) && |c.programs| == 1 && Steady(c, v)
    ensures var p := c.programs[0](c.stream);
            CanHang(c) <==> || (p.More? && WriteEnd(0) in c.ends[0])
                            || (p.Done? && |c.stream| > v + c.capacity[0] && |p.output| > c.capacity[1])
  {
    hide Hung, PipeSafe, ChildSafe, HostSafe, CanHang, Steady, Reachable;
    var p := c.programs[0](c.stream);
    if p.More? && WriteEnd(0) in c.ends[0] {
      StarvesAll(c, v);
      StarvedHangs(c, 0);
    }
    if p.Done? && |c.stream| > v + c.capacity[0] && |p.output| > c.capacity[1] {
      ReachCrossed(c, v);
      CrossedHangs(c, v, p.output);
      ReachHangs(c, Crossed(c, v, p.output));
    }
    if CanHang(c) {
      var s := HungIsSafe(c, v);
      HungAlone(c, s, v);
    }
  }

  // ---------------------------------------------------------------- two children, taken apart

  /** The second child waits on every proper prefix of what the first may send, and is done at its end. */
  ghost predicate Fed(c: Chain)
    requires |c.programs| == |c.atEof| == 2
  {
    forall g: seq<byte> | g <= c.stream && Decision(c, 0, g).Done? ::
      var out := Decision(c, 0, g).output;
      c.programs[1](out).Done? && forall k: nat | k < |out| :: c.programs[1](out[..k]).More?
  }

  /** What the second child has received is all there is, or it still wants more. */
  lemma {:induction false} FedIsExact(c: Chain, s: State)
    requires Wired(c) && Safe(c, s) && |c.programs| == 2 && Fed(c)
    requires s.children[0].Writing? || s.children[0].Exited?
    ensures var got, left := s.children[1].got, s.pipes[1] + Unsent(s, 1);
            if left != [] then c.programs[1](got).More?
            else c.programs[1](got).Done? && got == Output(Decision(c, 0, s.children[0].got))
  {
    hide Holds, Decision;
    assert PipeSafe(c, s, 0) && PipeSafe(c, s, 1) && ChildSafe(c, s, 0);
    var g, got := s.children[0].got, s.children[1].got;
    assert g <= c.stream;
    var out := Decision(c, 0, g).output;
    assert got + (s.pipes[1] + Unsent(s, 1)) == out;
    assert got == out[..|got|];
  }

  /** A second child that holds a write end of its own input leaves its reading phase by a decision alone. */
  lemma {:induction false} SecondDecides(c: Chain, s: State)
    requires Wired(c) && Safe(c, s) && |c.programs| == 2 && WriteEnd(1) in c.ends[1]
    ensures !s.children[1].Reading? ==> !c.programs[1](s.children[1].got).More?
  {
    assert ChildSafe(c, s, 1);
  }

  /** In a hung state the first of two children is not writing. */
  lemma {:induction false} FirstWritesNot(c: Chain, s: State)
    requires Wired(c) && Safe(c, s) && Hung(c, s) && |c.programs| == 2 && Fed(c) && WriteEnd(1) in c.ends[1]
    ensures !s.children[0].Writing?
  {
    hide Fed, Hung, Holds, PipeSafe, ChildSafe;
    if s.children[0].Writing? {
      HungWriter(c, s, 0);
      FedIsExact(c, s);
      SecondDecides(c, s);
    }
  }

  /** Once the first of two children has exited, the second does not wait in a hung state. */
  lemma {:induction false} SecondWaitsNot(c: Chain, s: State)
    requires Wired(c) && Safe(c, s) && Hung(c, s) && |c.programs| == 2 && Fed(c) && s.children[0].Exited?
    ensures !s.children[1].Reading?
  {
    hide Fed, Hung, Holds, PipeSafe, ChildSafe;
    if s.children[1].Reading? {
      HungReader(c, s, 1);
      FedIsExact(c, s);
    }
  }

  /** If the first child meant to write and could not, the second is gone. */
  lemma {:induction false} FailedWriter(c: Chain, s: State)
    requires Wired(c) && Safe(c, s) && |c.programs| == 2 && s.children[0].Failed?
    ensures c.programs[0](s.children[0].got).Done? ==> !Live(s.children[1])
    ensures c.programs[0](s.children[0].got).More? ==> s.pipes[0] == []
  {
    hide PipeSafe, HostSafe;
    assert ChildSafe(c, s, 0);
    if Live(s.children[1]) {
      LiveHolds(c, s, 1, ReadEnd(1));
    }
  }

  /** A hung pair whose host still feeds: the first child has failed or exited short of the stream's end, and
      the second, which keeps the first pipe open, waits for messages or writes a report to the host. */
  lemma {:induction false} HungPairFeeding(c: Chain, s: State, v: nat)
    requires Wired(c) && Safe(c, s) && Hung(c, s) && |c.programs| == 2 && s.host.Feeding?
    requires Steady(c, v) && Fed(c) && WriteEnd(1) in c.ends[1]
    ensures var p := c.programs[0](c.stream);
            && !p.More? && ReadEnd(0) in c.ends[1] && |c.stream| > v + c.capacity[0]
            && (p.Done? ==> c.programs[1](p.output).Done? && |c.programs[1](p.output).output| > c.capacity[2])
  {
    hide Fed, Hung, Holds, PipeSafe, Steady;
    HungFeeding(c, s);
    var got := s.children[0].got;
    SteadyAt(c, v, got);
    FirstWritesNot(c, s);
    var i := SomeHolder(c, s, ReadEnd(0));
    assert i == 1;
    if c.programs[0](c.stream).Done? {
      assert ChildSafe(c, s, 0);
      FirstExited(c, s);
      ReportWaits(c, s);
    }
  }

  lemma {:induction false} FirstExited(c: Chain, s: State)
    requires Wired(c) && Safe(c, s) && |c.programs| == 2 && Live(s.children[1])
    requires !Live(s.children[0]) && c.programs[0](s.children[0].got).Done?
    ensures s.children[0].Exited?
  {
    hide PipeSafe, ChildSafe, HostSafe, Holds;
    if s.children[0].Failed? {
      FailedWriter(c, s);
    }
  }

  lemma {:induction false} ReportWaits(c: Chain, s: State)
    requires Wired(c) && Safe(c, s) && Hung(c, s) && |c.programs| == 2 && s.host.Feeding? && Live(s.children[1])
    requires Fed(c) && WriteEnd(1) in c.ends[1] && s.children[0].Exited? && c.programs[0](s.children[0].got).Done?
    ensures var out := c.programs[0](s.children[0].got).output;
            c.programs[1](out).Done? && |c.programs[1](out).output| > c.capacity[2]
  {
    hide Fed, Hung, Holds, PipeSafe, ChildSafe, HostSafe;
    SecondWaitsNot(c, s);
    HungWriter(c, s, 1);
    SecondDecides(c, s);
    FedIsExact(c, s);
    WritesOutput(c, s, 1);
  }

  /** A hung pair whose host has closed: the first child does not accept the stream. */
  lemma {:induction false} HungPairClosed(c: Chain, s: State)
    requires Wired(c) && Safe(c, s) && Hung(c, s) && |c.programs| == 2 && !s.host.Feeding?
    requires Fed(c) && WriteEnd(1) in c.ends[1]
    requires c.programs[0](c.stream).Done? ==> !c.programs[0](s.children[0].got).Bad?
    ensures !c.programs[0](c.stream).Done? && |c.stream| == |s.children[0].got| + |s.pipes[0]|
    ensures |s.pipes[0]| <= c.capacity[0]
  {
    hide Fed, Hung, Holds, PipeSafe, ChildSafe;
    var i := HungClosed(c, s);
    FirstWritesNot(c, s);
    assert !s.host.ReaderFailed? by { HungNotEnded(c, s); }
    ClosedPipe(c, s);
    match s.children[0]
    case Reading(_) =>
      ClosedReader(c, s);
    case Exited(_) =>
      SecondWaitsNot(c, s);
      HungWriter(c, s, 1);
    case Failed(g) =>
      FailedWriter(c, s);
      if c.programs[0](g).More? {
        GotWholeStream(c, s);
      }
    case Writing(_, _) =>
  }

  lemma {:induction false} HungNotEnded(c: Chain, s: State)
    requires Hung(c, s)
    ensures !s.host.ReaderFailed? && !s.host.Finished?
  {
  }

  lemma {:induction false} ClosedPipe(c: Chain, s: State)
    requires Wired(c) && Safe(c, s) && !s.host.ReaderFailed? && !s.host.Feeding?
    ensures |c.stream| == |s.children[0].got| + |s.pipes[0]| && |s.pipes[0]| <= c.capacity[0]
    ensures s.children[0].got <= c.stream
  {
    hide Holds, ChildSafe, Decision;
    assert PipeSafe(c, s, 0);
    assert s.children[0].got + s.pipes[0] == c.stream;
  }

  // ---------------------------------------------------------------- two children, driven to a standstill

  /** The first child has read `k` bytes, and the host waits to write the rest after the bytes up to `n`. */
  function Blocked(c: Chain, k: nat, n: nat, first: Child, second: Child): State
    requires k <= n <= |c.stream|
  {
    State(Feeding(c.stream[n..]), {WriteEnd(0), ReadEnd(2)}, [c.stream[k..n], [], []], [first, second])
  }

  /** The first child has read `k` bytes and the host, which has written the others, has closed. */
  function Closed(c: Chain, k: nat, first: Child): State
    requires k <= |c.stream|
  {
    State(Draining([]), {ReadEnd(2)}, [c.stream[k..], [], []], [first, Reading([])])
  }

  lemma {:induction false} ReachBlocked(c: Chain, v: nat, k: nat)
    requires Wired(c) && |c.programs| == 2 && Steady(c, v) && k <= v && k < |c.stream|
    ensures var n := if |c.stream| < k + c.capacity[0] then |c.stream| else k + c.capacity[0];
            k < n && Reachable(c, Blocked(c, k, n, Reading(c.stream[..k]), Reading([])))
  {
    hide Reachable;
    var n := if |c.stream| < k + c.capacity[0] then |c.stream| else k + c.capacity[0];
    ReachMoved(c, k);
    var s := Moved(c, k);
    LiveHolds(c, s, 0, ReadEnd(0));
    ReachFill(c, s, n - k);
    assert c.stream[k..][..n - k] == c.stream[k..n] && c.stream[k..][n - k..] == c.stream[n..];
    assert s.pipes == [[], [], []];
    assert s.pipes[0 := c.stream[k..n]] == [c.stream[k..n], [], []];
    assert s.children == [Reading(c.stream[..k]), Reading([])];
  }

  /** The first child decides at `v`, with the first pipe full and more to come. */
  lemma {:induction false} ReachVerdict(c: Chain, v: nat)
    requires Wired(c) && |c.programs| == 2 && Steady(c, v) && !c.programs[0](c.stream).More?
    requires |c.stream| > v + c.capacity[0]
    ensures var got := c.stream[..v];
            Reachable(c, Blocked(c, v, v + c.capacity[0], Decided(got, c.programs[0](c.stream)), Reading([])))
  {
    hide Reachable, Decided;
    ReachBlocked(c, v, v);
    var got, n := c.stream[..v], v + c.capacity[0];
    ReachDecision(c, Blocked(c, v, n, Reading(got), Reading([])), 0);
    assert [Reading(got), Reading([])][0 := Decided(got, c.programs[0](got))]
        == [Decided(got, c.programs[0](got)), Reading([])];
  }

  lemma {:induction false} BlockedHangs(c: Chain, k: nat, n: nat, got: seq<byte>)
    requires Wired(c) && |c.programs| == 2 && n == k + c.capacity[0] < |c.stream|
    requires ReadEnd(0) in c.ends[1] && WriteEnd(1) in c.ends[1] && c.programs[1]([]).More?
    ensures Hung(c, Blocked(c, k, n, Failed(got), Reading([])))
  {
    var s := Blocked(c, k, n, Failed(got), Reading([]));
    LiveHolds(c, s, 1, ReadEnd(0));
    LiveHolds(c, s, 1, WriteEnd(1));
    assert |s.pipes[0]| == c.capacity[0] && |s.host.left| > 0;
  }

  lemma {:induction false} ClosedHangs(c: Chain, k: nat, got: seq<byte>)
    requires Wired(c) && |c.programs| == 2 && k <= |c.stream|
    requires WriteEnd(1) in c.ends[1] && c.programs[1]([]).More?
    ensures Hung(c, Closed(c, k, Failed(got)))
  {
    var s := Closed(c, k, Failed(got));
    LiveHolds(c, s, 1, WriteEnd(1));
    LiveHolds(c, s, 1, WriteEnd(2));
  }

  /** One read takes the first child from short of its verdict to past it. */
  lemma {:induction false} ReachRead(c: Chain, k: nat, n: nat)
    requires Wired(c) && |c.programs| == 2 && k < n <= |c.stream| && c.programs[0](c.stream[..k]).More?
    requires Reachable(c, Blocked(c, k, n, Reading(c.stream[..k]), Reading([])))
    ensures Reachable(c, Blocked(c, n, n, Reading(c.stream[..n]), Reading([])))
  {
    hide Reachable, Holds;
    var s := Blocked(c, k, n, Reading(c.stream[..k]), Reading([]));
    ReachStep(c, s, ChildRead(0, n - k));
    assert c.stream[k..n][..n - k] == c.stream[k..n] && c.stream[k..n][n - k..] == c.stream[n..n];
    assert c.stream[..k] + c.stream[k..n] == c.stream[..n];
    assert s.pipes[0 := c.stream[n..n]] == [c.stream[n..n], [], []];
    assert s.children[0 := Reading(c.stream[..n])] == [Reading(c.stream[..n]), Reading([])];
  }

  /** The host writes what is left of the stream into the empty pipe and closes. */
  lemma {:induction false} ReachClosed(c: Chain, n: nat)
    requires Wired(c) && |c.programs| == 2 && n <= |c.stream| <= n + c.capacity[0]
    requires Reachable(c, Blocked(c, n, n, Reading(c.stream[..n]), Reading([])))
    ensures Reachable(c, Closed(c, n, Reading(c.stream[..n])))
  {
    hide Reachable;
    var s := Blocked(c, n, n, Reading(c.stream[..n]), Reading([]));
    var t := Blocked(c, n, |c.stream|, Reading(c.stream[..n]), Reading([]));
    assert c.stream[n..|c.stream|] == c.stream[n..] && c.stream[|c.stream|..] == [];
    if n < |c.stream| {
      LiveHolds(c, s, 0, ReadEnd(0));
      ReachFill(c, s, |c.stream| - n);
      assert c.stream[n..][..|c.stream| - n] == c.stream[n..] && c.stream[n..][|c.stream| - n..] == [];
      assert s.pipes[0 := c.stream[n..]] == t.pipes;
    }
    assert Reachable(c, t);
    ReachStep(c, t, HostClose);
    assert t.hostEnds - {WriteEnd(0)} == {ReadEnd(2)};
  }

  /** A stream rejected with little enough behind the verdict: the host can get rid of all of it. */
  lemma {:induction false} ReachRejected(c: Chain, v: nat) returns (n: nat)
    requires Wired(c) && |c.programs| == 2 && Steady(c, v) && c.programs[0](c.stream).Bad?
    requires |c.stream| < v + 2 * c.capacity[0]
    ensures n <= |c.stream| && Reachable(c, Closed(c, n, Failed(c.stream[..n])))
  {
    hide Reachable, Enabled;
    var k := v - 1;
    n := if |c.stream| < k + c.capacity[0] then |c.stream| else k + c.capacity[0];
    ReachBlocked(c, v, k);
    ReachRead(c, k, n);
    ReachClosed(c, n);
    var s := Closed(c, n, Reading(c.stream[..n]));
    assert c.programs[0](c.stream[..n]) == Bad;
    ReachDecision(c, s, 0);
    assert s.children[0 := Failed(c.stream[..n])] == Closed(c, n, Failed(c.stream[..n])).children;
  }

  lemma {:induction false} RejectedHangs(c: Chain, v: nat)
    requires Wired(c) && |c.programs| == 2 && Steady(c, v) && c.programs[0](c.stream).Bad?
    requires WriteEnd(1) in c.ends[1] && c.programs[1]([]).More?
    requires ReadEnd(0) in c.ends[1] || |c.stream| < v + 2 * c.capacity[0]
    ensures CanHang(c)
  {
    hide Reachable, Hung, CanHang, Steady;
    if |c.stream| < v + 2 * c.capacity[0] {
      var n := ReachRejected(c, v);
      ClosedHangs(c, n, c.stream[..n]);
      ReachHangs(c, Closed(c, n, Failed(c.stream[..n])));
    } else {
      ReachVerdict(c, v);
      BlockedHangs(c, v, v + c.capacity[0], c.stream[..v]);
      ReachHangs(c, Blocked(c, v, v + c.capacity[0], Failed(c.stream[..v]), Reading([])));
    }
  }

  /** While the host waits, the first child passes its output on, byte by byte. */
  lemma {:induction false} ReachRelayed(c: Chain, v: nat, out: seq<byte>, k: nat)
    requires Wired(c) && |c.programs| == 2 && v + c.capacity[0] < |c.stream| && k <= |out|
    requires forall i: nat | i < |out| :: c.programs[1](out[..i]).More?
    requires Reachable(c, Blocked(c, v, v + c.capacity[0], Writing(c.stream[..v], out), Reading([])))
    ensures Reachable(c, Blocked(c, v, v + c.capacity[0], Writing(c.stream[..v], out[k..]), Reading(out[..k])))
  {
    hide Reachable;
    if k == 0 {
      assert out[0..] == out && out[..0] == [];
    } else {
      ReachRelayed(c, v, out, k - 1);
      RelayOne(c, v, out, k - 1);
    }
  }

  lemma {:induction false} RelayOne(c: Chain, v: nat, out: seq<byte>, k: nat)
    requires Wired(c) && |c.programs| == 2 && v + c.capacity[0] < |c.stream| && k < |out|
    requires c.programs[1](out[..k]).More?
    requires Reachable(c, Blocked(c, v, v + c.capacity[0], Writing(c.stream[..v], out[k..]), Reading(out[..k])))
    ensures Reachable(c, Blocked(c, v, v + c.capacity[0], Writing(c.stream[..v], out[k + 1..]), Reading(out[..k + 1])))
  {
    hide Reachable;
    var got, n := c.stream[..v], v + c.capacity[0];
    var s := Blocked(c, v, n, Writing(got, out[k..]), Reading(out[..k]));
    LiveHolds(c, s, 1, ReadEnd(1));
    ReachStep(c, s, ChildWrite(0, 1));
    var t := s.(children := [Writing(got, out[k + 1..]), Reading(out[..k])], pipes := [c.stream[v..n], [out[k]], []]);
    assert out[k..][..1] == [out[k]] && out[k..][1..] == out[k + 1..] && [] + [out[k]] == [out[k]];
    assert s.children[0 := Writing(got, out[k + 1..])] == t.children && s.pipes[1 := [out[k]]] == t.pipes;
    ReachStep(c, t, ChildRead(1, 1));
    assert out[..k] + [out[k]] == out[..k + 1] && t.pipes[1][..1] == [out[k]] && t.pipes[1][1..] == [];
    assert t.pipes[1 := []] == s.pipes;
    assert t.children[1 := Reading(out[..k + 1])] == [Writing(got, out[k + 1..]), Reading(out[..k + 1])];
  }

  /** The first child has gone, the second has filled the report pipe, and the host still waits to write. */
  function Jammed(c: Chain, v: nat, out: seq<byte>, report: seq<byte>): State
    requires |c.capacity| == 3 && v + c.capacity[0] <= |c.stream| && c.capacity[2] <= |report|
  {
    var n := v + c.capacity[0];
    State(Feeding(c.stream[n..]), {WriteEnd(0), ReadEnd(2)}, [c.stream[v..n], [], report[..c.capacity[2]]],
          [Exited(c.stream[..v]), Writing(out, report[c.capacity[2]..])])
  }

  lemma {:induction false} ReachJammed(c: Chain, v: nat, out: seq<byte>, report: seq<byte>)
    requires Wired(c) && |c.programs| == 2 && v + c.capacity[0] < |c.stream| && c.capacity[2] < |report|
    requires c.programs[1](out) == Verdict.Done(report)
    requires Reachable(c, Blocked(c, v, v + c.capacity[0], Writing(c.stream[..v], []), Reading(out)))
    ensures Reachable(c, Jammed(c, v, out, report))
  {
    hide Reachable;
    var got, n := c.stream[..v], v + c.capacity[0];
    var s0 := Blocked(c, v, n, Writing(got, []), Reading(out));
    ReachStep(c, s0, ChildExit(0));
    var s1 := Blocked(c, v, n, Exited(got), Reading(out));
    assert s0.children[0 := Exited(got)] == s1.children;
    ReachDecision(c, s1, 1);
    var s2 := Blocked(c, v, n, Exited(got), Writing(out, report));
    assert s1.children[1 := Writing(out, report)] == s2.children;
    ReachReport(c, s2, 1, c.capacity[2]);
    assert s2.children[1 := Writing(out, report[c.capacity[2]..])] == Jammed(c, v, out, report).children;
    assert s2.pipes[2 := report[..c.capacity[2]]] == Jammed(c, v, out, report).pipes;
  }

  lemma {:induction false} JammedHangs(c: Chain, v: nat, out: seq<byte>, report: seq<byte>)
    requires Wired(c) && |c.programs| == 2 && v + c.capacity[0] < |c.stream| && c.capacity[2] < |report|
    requires ReadEnd(0) in c.ends[1]
    ensures Hung(c, Jammed(c, v, out, report))
  {
    var s := Jammed(c, v, out, report);
    LiveHolds(c, s, 1, ReadEnd(0));
    assert Holds(c, s, ReadEnd(2));
    assert |s.pipes[0]| == c.capacity[0] && |s.pipes[2]| == c.capacity[2];
  }

  lemma {:induction false} AcceptedHangs(c: Chain, v: nat)
    requires Wired(c) && |c.programs| == 2 && Steady(c, v) && Fed(c) && c.programs[0](c.stream).Done?
    requires ReadEnd(0) in c.ends[1] && |c.stream| > v + c.capacity[0]
    requires var report := c.programs[1](c.programs[0](c.stream).output);
             report.Done? && |report.output| > c.capacity[2]
    ensures CanHang(c)
  {
    hide Reachable, Hung, CanHang, Steady;
    var out := c.programs[0](c.stream).output;
    assert Decision(c, 0, c.stream) == Verdict.Done(out) && c.stream <= c.stream;
    ReachVerdict(c, v);
    ReachRelayed(c, v, out, |out|);
    assert out[|out|..] == [] && out[..|out|] == out;
    var report := c.programs[1](out).output;
    ReachJammed(c, v, out, report);
    JammedHangs(c, v, out, report);
    ReachHangs(c, Jammed(c, v, out, report));
  }

  /** Two children, of which the second holds a write end of its own input and takes all that the first may
      send, can hang exactly in three cases. The first wants more than the whole stream. Or it rejects the
      stream, and the second keeps the first pipe open for reading or the host can get rid of all it has to
      write. Or it accepts early, the second keeps the first pipe open for reading, and both the rest of the
      stream and the report are longer than their pipes take. */
  lemma {:induction false} PairHangs(c: Chain, v: nat)
    requires Wired(c) && |c.programs| == 2 && Steady(c, v) && Fed(c) && c.programs[1]([]).More?
    requires WriteEnd(1) in c.ends[1] && (WriteEnd(0) in c.ends[0] || WriteEnd(0) in c.ends[1])
    ensures var p := c.programs[0](c.stream);
            CanHang(c) <==>
              || p.More?
              || (p.Bad? && (ReadEnd(0) in c.ends[1] || |c.stream| < v + 2 * c.capacity[0]))
              || (p.Done? && ReadEnd(0) in c.ends[1] && |c.stream| > v + c.capacity[0]
                  && c.programs[1](p.output).Done? && |c.programs[1](p.output).output| > c.capacity[2])
  {
    hide Hung, Safe, CanHang, Steady, Fed, Reachable, Hungry;
    var p := c.programs[0](c.stream);
    if p.More? {
      StarvesAll(c, v);
      StarvedHangs(c, if WriteEnd(0) in c.ends[0] then 0 else 1);
    }
    if p.Bad? && (ReadEnd(0) in c.ends[1] || |c.stream| < v + 2 * c.capacity[0]) {
      RejectedHangs(c, v);
    }
    if p.Done? && ReadEnd(0) in c.ends[1] && |c.stream| > v + c.capacity[0]
       && c.programs[1](p.output).Done? && |c.programs[1](p.output).output| > c.capacity[2] {
      AcceptedHangs(c, v);
    }
    if CanHang(c) {
      var s := HungIsSafe(c, v);
      HungPair(c, s, v);
    }
  }

  lemma {:induction false} HungPair(c: Chain, s: State, v: nat)
    requires Wired(c) && Safe(c, s) && Hung(c, s) && |c.programs| == 2 && Steady(c, v) && Fed(c)
    requires WriteEnd(1) in c.ends[1]
    requires !c.programs[0](c.stream).More? ==> |s.children[0].got| < v + c.capacity[0]
    ensures var p := c.programs[0](c.stream);
            || p.More?
            || (p.Bad? && (ReadEnd(0) in c.ends[1] || |c.stream| < v + 2 * c.capacity[0]))
            || (p.Done? && ReadEnd(0) in c.ends[1] && |c.stream| > v + c.capacity[0]
                && c.programs[1](p.output).Done? && |c.programs[1](p.output).output| > c.capacity[2])
  {
    hide Hung, PipeSafe, ChildSafe, HostSafe, Steady, Fed, Holds;
    if s.host.Feeding? {
      HungPairFeeding(c, s, v);
    } else {
      HungNotEnded(c, s);
      ClosedPipe(c, s);
      SteadyAt(c, v, s.children[0].got);
      HungPairClosed(c, s);
    }
  }
}
