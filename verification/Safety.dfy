/** What every run of a chain keeps, whatever its processes do: nothing assumes that a child accepts its
    input, or that no process fails. */
module Safety {
  import opened Bytes
  import opened Transport

  /** What a child makes of its input: decided on it or, if it wanted more, at its end. */
  function Decision(c: Chain, i: nat, got: seq<byte>): Verdict
    requires i < |c.programs| == |c.atEof|
  {
    if c.programs[i](got).More? then c.atEof[i](got) else c.programs[i](got)
  }

  function Output(v: Verdict): seq<byte> {
    match v
    case Done(out) => out
    case _ => []
  }

  /** What pipe `i` is meant to carry, as far as its writer has decided. */
  function Sent(c: Chain, s: State, i: nat): seq<byte>
    requires i <= |s.children| == |c.programs| == |c.atEof|
  {
    if i == 0 then c.stream
    else if s.children[i - 1].Reading? then []
    else Output(Decision(c, i - 1, s.children[i - 1].got))
  }

  /** What the writer of pipe `i` still holds back. */
  function Unsent(s: State, i: nat): seq<byte>
    requires i <= |s.children|
  {
    if i == 0 then (if s.host.Feeding? then s.host.left else [])
    else if s.children[i - 1].Writing? then s.children[i - 1].left else []
  }

  predicate WriterFailed(s: State, i: nat)
    requires i <= |s.children|
  {
    if i == 0 then s.host.ReaderFailed? else s.children[i - 1].Failed?
  }

  // ---------------------------------------------------------------- the invariant

  /** A pipe never loses, doubles or reorders a byte, and falls short only if its writer failed. */
  ghost predicate PipeSafe(c: Chain, s: State, i: nat)
    requires Shaped(c, s) && i <= |c.programs|
  {
    && Got(c, s, i) + s.pipes[i] + Unsent(s, i) <= Sent(c, s, i)
    && (!WriterFailed(s, i) ==> Got(c, s, i) + s.pipes[i] + Unsent(s, i) == Sent(c, s, i))
    && |s.pipes[i]| <= c.capacity[i]
  }

  /** How a child left its reading phase. Only at the end of its input does one decide that wanted more,
      which a child that itself holds a write end of its input never meets; and one that had decided to
      write fails only when its reader is gone. */
  ghost predicate ChildSafe(c: Chain, s: State, i: nat)
    requires Shaped(c, s) && i < |c.programs|
  {
    var p := s.children[i];
    && (p.Writing? || p.Exited? ==> Decision(c, i, p.got).Done?)
    && (p.Failed? && Decision(c, i, p.got).Done? ==> !Holds(c, s, ReadEnd(i + 1)))
    && (!p.Reading? && c.programs[i](p.got).More? ==>
          s.pipes[i] == [] && !Holds(c, s, WriteEnd(i)) && WriteEnd(i) !in c.ends[i])
  }

  ghost predicate HostSafe(c: Chain, s: State)
    requires Shaped(c, s) && |c.programs| > 0
  {
    var m := |c.programs|;
    && (s.host.Feeding? <==> WriteEnd(0) in s.hostEnds)
    && (!s.host.ReaderFailed? ==> ReadEnd(m) in s.hostEnds)
    && s.hostEnds <= {WriteEnd(0), ReadEnd(m)}
    && (s.host.Reaping? ==> s.host.next <= m && forall i: nat | i < s.host.next :: !Live(s.children[i]))
    && (s.host.Reaping? || s.host.Finished? ==> s.pipes[m] == [] && !Live(s.children[m - 1]))
    && (s.host.Finished? ==> forall i: nat | i < m :: s.children[i].Exited?)
  }

  ghost predicate Safe(c: Chain, s: State) {
    && Shaped(c, s) && |c.programs| > 0
    && (forall i: nat | i <= |c.programs| :: PipeSafe(c, s, i))
    && (forall i: nat | i < |c.programs| :: ChildSafe(c, s, i))
    && HostSafe(c, s)
  }

  lemma {:induction false} StartSafe(c: Chain)
    requires Wired(c)
    ensures Safe(c, Start(c))
  {
  }

  // ---------------------------------------------------------------- every step keeps it

  /** Ends are only ever given up. */
  lemma {:induction false} HoldsFalls(c: Chain, s: State, a: Action, e: End)
    requires Shaped(c, s) && Enabled(c, s, a) && Holds(c, Apply(c, s, a), e)
    ensures Holds(c, s, e)
  {
    var t := Apply(c, s, a);
    if e !in s.hostEnds {
      var i: nat :| i < |t.children| && Live(t.children[i]) && e in c.ends[i];
      assert Live(s.children[i]);
    }
  }

  /** A step that touches neither end of a pipe, nor the pipe. */
  lemma {:induction false} PipeUntouched(c: Chain, s: State, t: State, i: nat)
    requires Shaped(c, s) && Shaped(c, t) && i <= |c.programs| && PipeSafe(c, s, i)
    requires t.host == s.host && t.pipes[i] == s.pipes[i]
    requires i < |c.programs| ==> t.children[i].got == s.children[i].got
    requires i > 0 ==> t.children[i - 1] == s.children[i - 1] || (s.children[i - 1].Reading? && t.children[i - 1].Reading?)
    ensures PipeSafe(c, t, i)
  {
    hide Decision;
  }

  lemma {:induction false} PipeReadStays(c: Chain, s: State, j: nat, k: nat, i: nat)
    requires Shaped(c, s) && i <= |c.programs| && PipeSafe(c, s, i) && Enabled(c, s, ChildRead(j, k))
    ensures PipeSafe(c, Apply(c, s, ChildRead(j, k)), i)
  {
    hide Holds, Decision, PipeSafe;
    if i == j {
      OwnReadStays(c, s, j, k);
    } else {
      PipeUntouched(c, s, Apply(c, s, ChildRead(j, k)), i);
    }
  }

  lemma {:induction false} OwnReadStays(c: Chain, s: State, j: nat, k: nat)
    requires Shaped(c, s) && Enabled(c, s, ChildRead(j, k)) && PipeSafe(c, s, j)
    ensures PipeSafe(c, Apply(c, s, ChildRead(j, k)), j)
  {
    hide Holds, Decision;
    var t := Apply(c, s, ChildRead(j, k));
    assert Sent(c, t, j) == Sent(c, s, j) && Unsent(t, j) == Unsent(s, j);
    MoveBytes(s.children[j].got, s.pipes[j], Unsent(s, j), k);
  }

  lemma {:induction false} PipeWriteStays(c: Chain, s: State, j: nat, k: nat, i: nat)
    requires Shaped(c, s) && i <= |c.programs| && PipeSafe(c, s, i) && Enabled(c, s, ChildWrite(j, k))
    ensures PipeSafe(c, Apply(c, s, ChildWrite(j, k)), i)
  {
    hide Holds, Decision, PipeSafe;
    if i == j + 1 {
      OwnWriteStays(c, s, j, k);
    } else {
      PipeUntouched(c, s, Apply(c, s, ChildWrite(j, k)), i);
    }
  }

  /** A step that only moves bytes along a pipe. */
  lemma {:induction false} PipeShifts(c: Chain, s: State, t: State, i: nat)
    requires Shaped(c, s) && Shaped(c, t) && i <= |c.programs| && PipeSafe(c, s, i)
    requires Got(c, t, i) + t.pipes[i] + Unsent(t, i) == Got(c, s, i) + s.pipes[i] + Unsent(s, i)
    requires Sent(c, t, i) == Sent(c, s, i) && WriterFailed(t, i) == WriterFailed(s, i)
    requires |t.pipes[i]| <= c.capacity[i]
    ensures PipeSafe(c, t, i)
  {
    hide Got, Unsent, Sent, WriterFailed;
  }

  lemma {:induction false} OwnWriteStays(c: Chain, s: State, j: nat, k: nat)
    requires Shaped(c, s) && Enabled(c, s, ChildWrite(j, k)) && PipeSafe(c, s, j + 1)
    ensures PipeSafe(c, Apply(c, s, ChildWrite(j, k)), j + 1)
  {
    hide Holds, Decision, PipeSafe;
    var t := Apply(c, s, ChildWrite(j, k));
    MoveBytes(Got(c, s, j + 1), s.pipes[j + 1], s.children[j].left, k);
    PipeShifts(c, s, t, j + 1);
  }

  lemma {:induction false} PipeTurnStays(c: Chain, s: State, a: Action, i: nat)
    requires Shaped(c, s) && i <= |c.programs| && PipeSafe(c, s, i) && Enabled(c, s, a)
    requires a.ChildEof? || a.ChildDecide? || a.ChildBroken? || a.ChildExit?
    ensures PipeSafe(c, Apply(c, s, a), i)
  {
    hide Holds, PipeSafe, Decision;
    if i != a.i + 1 {
      PipeUntouched(c, s, Apply(c, s, a), i);
    } else if a.ChildEof? || a.ChildDecide? {
      OwnDecisionStays(c, s, a);
    } else {
      OwnEndStays(c, s, a);
    }
  }

  lemma {:induction false} OwnDecisionStays(c: Chain, s: State, a: Action)
    requires Shaped(c, s) && Enabled(c, s, a) && (a.ChildEof? || a.ChildDecide?) && PipeSafe(c, s, a.i + 1)
    ensures PipeSafe(c, Apply(c, s, a), a.i + 1)
  {
    hide Holds, PipeSafe, Decision;
    var t := Apply(c, s, a);
    NothingSent(c, s, a.i + 1);
    DecidedToSend(c, s, a);
    PipeIsFresh(c, t, a.i + 1);
  }

  lemma {:induction false} NothingSent(c: Chain, s: State, i: nat)
    requires Shaped(c, s) && 0 < i <= |c.programs| && PipeSafe(c, s, i) && s.children[i - 1].Reading?
    ensures Got(c, s, i) == [] && s.pipes[i] == []
  {
    hide Holds;
    assert |Sent(c, s, i)| == 0;
  }

  /** A child that has just decided has all its output to send. */
  lemma {:induction false} DecidedToSend(c: Chain, s: State, a: Action)
    requires Shaped(c, s) && Enabled(c, s, a) && (a.ChildEof? || a.ChildDecide?)
    ensures Unsent(Apply(c, s, a), a.i + 1) == Sent(c, Apply(c, s, a), a.i + 1)
  {
    hide Holds;
  }

  lemma {:induction false} PipeIsFresh(c: Chain, t: State, i: nat)
    requires Shaped(c, t) && i <= |c.programs| && Got(c, t, i) == [] && t.pipes[i] == [] && Unsent(t, i) == Sent(c, t, i)
    ensures PipeSafe(c, t, i)
  {
    hide Got, Unsent, Sent, WriterFailed;
  }

  lemma {:induction false} OwnEndStays(c: Chain, s: State, a: Action)
    requires Shaped(c, s) && Enabled(c, s, a) && (a.ChildBroken? || a.ChildExit?) && PipeSafe(c, s, a.i + 1)
    ensures PipeSafe(c, Apply(c, s, a), a.i + 1)
  {
    hide Holds, Decision;
    var t := Apply(c, s, a);
    assert Got(c, t, a.i + 1) == Got(c, s, a.i + 1) && Sent(c, t, a.i + 1) == Sent(c, s, a.i + 1);
  }

  lemma {:induction false} HostWriteStays(c: Chain, s: State, k: nat)
    requires Shaped(c, s) && PipeSafe(c, s, 0) && |c.programs| > 0 && Enabled(c, s, HostWrite(k))
    ensures PipeSafe(c, Apply(c, s, HostWrite(k)), 0)
  {
    hide Holds, Decision;
    MoveBytes(Got(c, s, 0), s.pipes[0], s.host.left, k);
  }

  lemma {:induction false} HostReadStays(c: Chain, s: State, k: nat)
    requires Shaped(c, s) && PipeSafe(c, s, |c.programs|) && |c.programs| > 0 && Enabled(c, s, HostRead(k))
    ensures PipeSafe(c, Apply(c, s, HostRead(k)), |c.programs|)
  {
    hide Holds, Decision;
    var m, t := |c.programs|, Apply(c, s, HostRead(k));
    assert Sent(c, t, m) == Sent(c, s, m) && Unsent(t, m) == Unsent(s, m);
    MoveBytes(s.host.report, s.pipes[m], Unsent(s, m), k);
  }

  lemma {:induction false} HostLeavesPipe(c: Chain, s: State, t: State, i: nat)
    requires Shaped(c, s) && Shaped(c, t) && i <= |c.programs| && PipeSafe(c, s, i)
    requires t.children == s.children && t.pipes[i] == s.pipes[i] && Got(c, t, i) == Got(c, s, i)
    requires i == 0 ==>
               || (Unsent(t, 0) == Unsent(s, 0) && t.host.ReaderFailed? == s.host.ReaderFailed?)
               || (Unsent(t, 0) == [] && t.host.ReaderFailed?)
    ensures PipeSafe(c, t, i)
  {
    hide Decision;
  }

  lemma {:induction false} PipeHostStays(c: Chain, s: State, a: Action, i: nat)
    requires Shaped(c, s) && |c.programs| > 0 && i <= |c.programs| && PipeSafe(c, s, i) && Enabled(c, s, a)
    requires a.HostWrite? || a.HostBroken? || a.HostClose? || a.HostRead? || a.HostEof? || a.HostReap?
    ensures PipeSafe(c, Apply(c, s, a), i)
  {
    hide Holds, PipeSafe, Decision;
    if a.HostWrite? && i == 0 {
      HostWriteStays(c, s, a.k);
    } else if a.HostRead? && i == |c.programs| {
      HostReadStays(c, s, a.k);
    } else {
      HostLeavesPipe(c, s, Apply(c, s, a), i);
    }
  }

  lemma {:induction false} PipeStays(c: Chain, s: State, a: Action, i: nat)
    requires Safe(c, s) && i <= |c.programs| && Enabled(c, s, a)
    ensures PipeSafe(c, Apply(c, s, a), i)
  {
    hide Enabled, Apply, PipeSafe, ChildSafe, HostSafe;
    assert PipeSafe(c, s, i);
    match a
    case ChildRead(j, k) => PipeReadStays(c, s, j, k, i);
    case ChildWrite(j, k) => PipeWriteStays(c, s, j, k, i);
    case ChildEof(_) => PipeTurnStays(c, s, a, i);
    case ChildDecide(_) => PipeTurnStays(c, s, a, i);
    case ChildBroken(_) => PipeTurnStays(c, s, a, i);
    case ChildExit(_) => PipeTurnStays(c, s, a, i);
    case _ => PipeHostStays(c, s, a, i);
  }

  lemma {:induction false} NotHeld(c: Chain, s: State, e: End)
    requires Shaped(c, s) && !Holds(c, s, e)
    ensures e !in s.hostEnds && forall i: nat | i < |s.children| && Live(s.children[i]) :: e !in c.ends[i]
  {
  }

  /** A pipe without a writer stays as it is or shrinks. */
  lemma {:induction false} EmptyStays(c: Chain, s: State, a: Action, i: nat)
    requires Wired(c) && Safe(c, s) && Enabled(c, s, a) && i < |c.programs|
    requires s.pipes[i] == [] && !Holds(c, s, WriteEnd(i))
    ensures Apply(c, s, a).pipes[i] == [] && !Holds(c, Apply(c, s, a), WriteEnd(i))
  {
    hide PipeSafe, ChildSafe;
    if Holds(c, Apply(c, s, a), WriteEnd(i)) {
      HoldsFalls(c, s, a, WriteEnd(i));
    }
    NotHeld(c, s, WriteEnd(i));
    assert i > 0 ==> WriteEnd(i) in c.ends[i - 1];
  }

  lemma {:induction false} ChildStays(c: Chain, s: State, a: Action, i: nat)
    requires Wired(c) && Safe(c, s) && Enabled(c, s, a) && i < |c.programs|
    ensures ChildSafe(c, Apply(c, s, a), i)
  {
    hide PipeSafe, HostSafe, Holds;
    var t := Apply(c, s, a);
    assert ChildSafe(c, s, i);
    if Holds(c, t, ReadEnd(i + 1)) {
      HoldsFalls(c, s, a, ReadEnd(i + 1));
    }
    if s.pipes[i] == [] && !Holds(c, s, WriteEnd(i)) {
      EmptyStays(c, s, a, i);
    }
    if a == ChildEof(i) {
      NotHeld(c, s, WriteEnd(i));
    }
    if a == ChildBroken(i) {
      assert !Holds(c, s, ReadEnd(i + 1));
    }
  }

  lemma {:induction false} HostStays(c: Chain, s: State, a: Action)
    requires Wired(c) && Safe(c, s) && Enabled(c, s, a)
    ensures HostSafe(c, Apply(c, s, a))
  {
    hide PipeSafe, ChildSafe, Decision;
    var m, t := |c.programs|, Apply(c, s, a);
    if a.HostEof? {
      NotHeld(c, s, WriteEnd(m));
      assert WriteEnd(m) in c.ends[m - 1];
    }
  }

  lemma {:induction false} StepSafe(c: Chain, s: State, a: Action)
    requires Wired(c) && Safe(c, s) && Enabled(c, s, a)
    ensures Safe(c, Apply(c, s, a))
  {
    hide Wired, PipeSafe, ChildSafe, HostSafe, Enabled, Apply;
    var t := Apply(c, s, a);
    forall i: nat | i <= |c.programs|
      ensures PipeSafe(c, t, i)
    {
      PipeStays(c, s, a, i);
    }
    forall i: nat | i < |c.programs|
      ensures ChildSafe(c, t, i)
    {
      ChildStays(c, s, a, i);
    }
    HostStays(c, s, a);
  }

  lemma {:induction false} RunSafe(c: Chain, s: State, run: seq<Action>)
    requires Wired(c) && Safe(c, s) && Execute(c, s, run).Some?
    ensures Safe(c, Execute(c, s, run).value)
    decreases |run|
  {
    hide Wired, PipeSafe, ChildSafe, HostSafe, Enabled, Apply;
    if run != [] {
      StepSafe(c, s, run[0]);
      RunSafe(c, Apply(c, s, run[0]), run[1..]);
    }
  }

  /** Safety of every run of every chain, failing ones included: what has left a pipe and what is in it are
      a prefix of what its writer meant to send. If the host finishes, every child has exited after
      accepting what it read, each pipe carried exactly its writer's output, and the host's report is
      exactly the last child's. */
  lemma {:induction false} EveryRunIsSafe(c: Chain, run: seq<Action>)
    requires Wired(c) && Execute(c, Start(c), run).Some?
    ensures var s := Execute(c, Start(c), run).value;
            && (forall i: nat | i <= |c.programs| :: Got(c, s, i) + s.pipes[i] <= Sent(c, s, i))
            && (s.host.Finished? ==>
                  && (forall i: nat | i < |c.programs| ::
                        && s.children[i].Exited? && Decision(c, i, s.children[i].got).Done?
                        && s.children[i].got + s.pipes[i] == Sent(c, s, i)
                        && Sent(c, s, i + 1) == Decision(c, i, s.children[i].got).output)
                  && s.host.report == Sent(c, s, |c.programs|))
  {
    hide Wired, Execute, Decision, Holds;
    StartSafe(c);
    RunSafe(c, Start(c), run);
    var s := Execute(c, Start(c), run).value;
    forall i: nat | i <= |c.programs|
      ensures Got(c, s, i) + s.pipes[i] <= Sent(c, s, i)
    {
      assert PipeSafe(c, s, i);
    }
    if s.host.Finished? {
      assert PipeSafe(c, s, |c.programs|);
      forall i: nat | i < |c.programs|
        ensures Decision(c, i, s.children[i].got).Done?
        ensures s.children[i].got + s.pipes[i] == Sent(c, s, i)
      {
        assert ChildSafe(c, s, i) && PipeSafe(c, s, i);
      }
    }
  }
}
