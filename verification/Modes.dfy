/** The two sandboxed runs, assembled: descriptor set-up, the concurrent chain, and the programs of the
    host and of each reader. */
module Modes {
  import opened Bytes
  import opened Wire
  import opened Ipc
  import opened Transport
  import opened Safety
  import opened Stalls
  import opened Hangs
  import opened Descriptors

  /** The reader of Mode A: parse frames until the trailer, then write the report. */
  function ReaderProgram(u: Utf8, report: seq<Frame> -> seq<byte>): seq<byte> -> Verdict {
    (got: seq<byte>) =>
      match Parse(u, got)
      case Ok(p) => Verdict.Done(report(p.frames))
      case Err(e) => if e.UnexpectedEof? then Verdict.More else Bad
  }

  /** The bytes reader of Mode B: parse frames until the trailer, then emit the messages. */
  function BytesProgram(u: Utf8, j: Json, nonceHex: string): seq<byte> -> Verdict {
    ReaderProgram(u, frames => Lines(j, Messages(nonceHex, frames)))
  }

  /** The inference process of Mode B: read messages until the terminator, then write the report. */
  function PrivProgram(j: Json, report: seq<Message> -> seq<byte>): seq<byte> -> Verdict {
    (got: seq<byte>) =>
      match ReadLines(j, got, false)
      case Done(ms, _) => Verdict.Done(report(ms))
      case More => Verdict.More
      case Failed(_) => Bad
  }

  /** Both readers of frames fail at the end of an input that they have not accepted. */
  function ReaderAtEof(): seq<byte> -> Verdict {
    (got: seq<byte>) => Bad
  }

  /** The inference process takes the messages it has when its input ends. */
  function PrivAtEof(j: Json, report: seq<Message> -> seq<byte>): seq<byte> -> Verdict {
    (got: seq<byte>) =>
      match ReadLines(j, got, true)
      case Done(ms, _) => Verdict.Done(report(ms))
      case _ => Bad
  }

  function ModeA(t: Table, capacity: (nat, nat), u: Utf8, report: seq<Frame> -> seq<byte>, es: seq<FileEntry>): Chain
    requires SetUpModeA(t).reader.Some?
  {
    Chain([capacity.0, capacity.1], [ReaderProgram(u, report)], [ReaderAtEof()], [Ends(SetUpModeA(t).reader.value)],
          Serialize(u, es))
  }

  function ModeB(t: Table, capacity: (nat, nat, nat), u: Utf8, j: Json, nonceHex: string,
                 report: seq<Message> -> seq<byte>, es: seq<FileEntry>): Chain
    requires SetUpModeB(t).bytes.Some? && SetUpModeB(t).priv.Some?
  {
    Chain([capacity.0, capacity.1, capacity.2],
          [BytesProgram(u, j, nonceHex), PrivProgram(j, report)],
          [ReaderAtEof(), PrivAtEof(j, report)],
          [Ends(SetUpModeB(t).bytes.value), Ends(SetUpModeB(t).priv.value)],
          Serialize(u, es))
  }

  // ---------------------------------------------------------------- what the reader makes of the stream

  /** What the parser makes of everything the host sends. */
  function Reception(u: Utf8, es: seq<FileEntry>): Result<Parsed, ProtoError> {
    Parse(u, Serialize(u, es))
  }

  /** The parser accepts the host's stream, and not before its end. */
  predicate Complete(u: Utf8, es: seq<FileEntry>) {
    Reception(u, es).Ok? && Reception(u, es).value.used == |Serialize(u, es)|
  }

  predicate CutShort(u: Utf8, es: seq<FileEntry>) {
    Reception(u, es) == Err(UnexpectedEof)
  }

  /** A fitting file set is received complete, and as the host's own files. */
  lemma {:induction false} FittingIsComplete(u: Utf8, es: seq<FileEntry>)
    requires u.Lawful() && Fits(u, es)
    ensures Complete(u, es) && Reception(u, es).value.frames == Expected(u, es)
  {
    hide Parse, Serialize, Fits, Expected;
    RoundTrip(u, es, []);
    assert Serialize(u, es) + [] == Serialize(u, es);
  }

  /** On a prefix of the stream the parser waits, or has reached its verdict on the whole. */
  lemma {:induction false} PrefixVerdict(u: Utf8, es: seq<FileEntry>, g: seq<byte>)
    requires g <= Serialize(u, es)
    ensures Parse(u, g) == Err(UnexpectedEof) || Parse(u, g) == Reception(u, es)
    ensures Complete(u, es) && g != Serialize(u, es) ==> Parse(u, g) == Err(UnexpectedEof)
    ensures CutShort(u, es) ==> Parse(u, g) == Err(UnexpectedEof)
  {
    hide Parse, Serialize;
    var s := Serialize(u, es);
    assert g + s[|g|..] == s && s[..|g|] == g;
    ParseIgnoresTail(u, g, s[|g|..]);
    if Complete(u, es) && g != s {
      PrefixFree(u, s, |g|, []);
    }
  }

  lemma {:induction false} StreamIsLong(u: Utf8, es: seq<FileEntry>)
    ensures |Serialize(u, es)| >= 12 && Parse(u, []) == Err(UnexpectedEof)
  {
    hide SerializeEntries;
  }

  /** A reader of frames waits on every proper prefix of a stream that is received complete, and is done at
      its end. */
  lemma {:induction false} ReaderFeeds(u: Utf8, report: seq<Frame> -> seq<byte>, es: seq<FileEntry>)
    requires Complete(u, es)
    ensures var s := Serialize(u, es);
            && ReaderProgram(u, report)(s) == Verdict.Done(report(Reception(u, es).value.frames))
            && forall k: nat | k < |s| :: ReaderProgram(u, report)(s[..k]).More?
  {
    hide Parse, Serialize;
    var s := Serialize(u, es);
    forall k: nat | k < |s|
      ensures ReaderProgram(u, report)(s[..k]).More?
    {
      PrefixVerdict(u, es, s[..k]);
    }
  }

  lemma {:induction false} ReaderIsSteady(u: Utf8, report: seq<Frame> -> seq<byte>, es: seq<FileEntry>, g: seq<byte>)
    requires g <= Serialize(u, es)
    ensures var p := ReaderProgram(u, report);
            && (p(g).More? || p(g) == p(Serialize(u, es)))
            && (p(g).Done? ==> Reception(u, es).Ok? && p(g).output == report(Reception(u, es).value.frames))
            && (p(Serialize(u, es)).Done? <==> Reception(u, es).Ok?)
            && (p(Serialize(u, es)).More? <==> CutShort(u, es))
            && (CutShort(u, es) ==> p(g).More?)
  {
    hide Parse, Serialize;
    PrefixVerdict(u, es, g);
  }

  /** How many bytes of `s`, from `n` on, the parser takes before it waits no longer. */
  function WaitsUntil(u: Utf8, s: seq<byte>, n: nat): (v: nat)
    requires n <= |s|
    ensures n <= v <= |s| && forall k: nat | n <= k < v :: Parse(u, s[..k]) == Err(UnexpectedEof)
    ensures v < |s| ==> Parse(u, s[..v]) != Err(UnexpectedEof)
    decreases |s| - n
  {
    if n == |s| || Parse(u, s[..n]) != Err(UnexpectedEof) then n else WaitsUntil(u, s, n + 1)
  }

  /** How much of the host's stream the parser takes to its verdict: all of it, if it has none at the end. */
  function VerdictAt(u: Utf8, es: seq<FileEntry>): nat {
    WaitsUntil(u, Serialize(u, es), 0)
  }

  /** Short of that place the parser waits, and from there on its verdict is the one on the whole stream. An
      accepted stream is decided where the bytes it uses end, one cut short nowhere. */
  lemma {:induction false} VerdictPlace(u: Utf8, es: seq<FileEntry>)
    ensures var (s, v) := (Serialize(u, es), VerdictAt(u, es));
            && 0 < v <= |s|
            && (forall n: nat | n < v :: Parse(u, s[..n]) == Err(UnexpectedEof))
            && (forall n: nat | v <= n <= |s| :: Parse(u, s[..n]) == Reception(u, es))
            && (Reception(u, es).Ok? ==> v == Reception(u, es).value.used)
            && (CutShort(u, es) ==> v == |s|)
  {
    hide Parse, Serialize;
    var (s, v) := (Serialize(u, es), VerdictAt(u, es));
    StreamIsLong(u, es);
    assert s[..0] == [];
    VerdictAround(u, es, 0);
    forall n: nat | n <= |s|
      ensures if n < v then Parse(u, s[..n]) == Err(UnexpectedEof) else Parse(u, s[..n]) == Reception(u, es)
    {
      VerdictAround(u, es, n);
    }
    StillWaits(u, es);
    if Reception(u, es).Ok? {
      AcceptedAt(u, es);
    }
  }

  lemma {:induction false} VerdictAround(u: Utf8, es: seq<FileEntry>, n: nat)
    requires n <= |Serialize(u, es)|
    ensures var g := Serialize(u, es)[..n];
            Parse(u, g) == if n < VerdictAt(u, es) then Err(UnexpectedEof) else Reception(u, es)
  {
    hide Parse, Serialize;
    if VerdictAt(u, es) <= n {
      VerdictLasts(u, es, n);
    }
  }

  lemma {:induction false} StillWaits(u: Utf8, es: seq<FileEntry>)
    ensures CutShort(u, es) ==> VerdictAt(u, es) == |Serialize(u, es)|
    ensures Parse(u, []) != Reception(u, es) ==> VerdictAt(u, es) > 0
  {
    hide Parse, Serialize;
    VerdictAround(u, es, 0);
    assert Serialize(u, es)[..0] == [];
    PrefixVerdict(u, es, Serialize(u, es)[..VerdictAt(u, es)]);
  }

  lemma {:induction false} VerdictLasts(u: Utf8, es: seq<FileEntry>, n: nat)
    requires VerdictAt(u, es) <= n <= |Serialize(u, es)|
    ensures Parse(u, Serialize(u, es)[..n]) == Reception(u, es)
  {
    hide Parse, Serialize;
    var (s, v) := (Serialize(u, es), VerdictAt(u, es));
    if v == |s| {
      assert s[..n] == s;
    } else {
      assert s[..n] == s[..v] + s[v..n];
      ParseIgnoresTail(u, s[..v], s[v..n]);
      PrefixVerdict(u, es, s[..n]);
    }
  }

  lemma {:induction false} AcceptedAt(u: Utf8, es: seq<FileEntry>)
    requires Reception(u, es).Ok?
    ensures VerdictAt(u, es) == Reception(u, es).value.used
  {
    hide Parse, Serialize;
    var (s, v) := (Serialize(u, es), VerdictAt(u, es));
    var used := Reception(u, es).value.used;
    PrefixFree(u, s, v, []);
    assert s[..used] + [] == s[..used] && s[..|s|] == s;
    VerdictAround(u, es, used);
  }

  /** The verdict place is where the program of a reader of frames stops asking for more. */
  lemma {:induction false} ReaderTurns(c: Chain, u: Utf8, report: seq<Frame> -> seq<byte>, es: seq<FileEntry>)
    requires |c.programs| > 0 && c.programs[0] == ReaderProgram(u, report) && c.stream == Serialize(u, es)
    ensures Steady(c, VerdictAt(u, es))
  {
    hide Parse, Serialize, VerdictAt;
    VerdictPlace(u, es);
  }

  // ---------------------------------------------------------------- the chains are wired

  lemma {:induction false} ModeAWired(t: Table, capacity: (nat, nat), u: Utf8,
                                      report: seq<Frame> -> seq<byte>, es: seq<FileEntry>)
    requires Initial(t) && capacity.0 > 0 && capacity.1 > 0
    ensures SetUpModeA(t).reader.Some?
    ensures var c := ModeA(t, capacity, u, report, es);
            && Wired(c) && Start(c).hostEnds == Ends(SetUpModeA(t).host)
            && (WriteEnd(0) in c.ends[0] <==> OpenPipe(t, 0).w != 5)
  {
    hide Serialize, SetUpModeA, Ends, ReaderProgram, OpenPipe;
    ModeAIsWired(t);
  }

  lemma {:induction false} ModeBWired(t: Table, capacity: (nat, nat, nat), u: Utf8, j: Json, nonceHex: string,
                   report: seq<Message> -> seq<byte>, es: seq<FileEntry>)
    requires Initial(t) && capacity.0 > 0 && capacity.1 > 0 && capacity.2 > 0
    ensures SetUpModeB(t).bytes.Some? && SetUpModeB(t).priv.Some?
    ensures var c := ModeB(t, capacity, u, j, nonceHex, report, es);
            && Wired(c) && Start(c).hostEnds == Ends(SetUpModeB(t).host)
            && (WriteEnd(0) in c.ends[0] || WriteEnd(0) in c.ends[1]) && WriteEnd(1) in c.ends[1]
            && WriteEnd(2) in c.ends[0] && WriteEnd(2) in c.ends[1]
            && (ReadEnd(0) in c.ends[1] <==> OpenPipe(t, 0).r != 3 && OpenPipe(t, 0).r != 5)
  {
    hide Serialize, SetUpModeB, Ends, BytesProgram, PrivProgram, PrivAtEof, OpenPipe;
    ModeBIsWired(t);
  }

  // ---------------------------------------------------------------- Mode A

  /** Mode A, over every starting descriptor table, every positive pipe capacity, every chunking and
      every interleaving: a run on a file set that is received complete never fails, never exceeds its work
      bound, is never stuck, and ends with the reader having read the whole stream and the host holding
      exactly the report made from the frames received. */
  lemma {:induction false} ModeADelivers(t: Table, capacity: (nat, nat), u: Utf8, report: seq<Frame> -> seq<byte>,
                      es: seq<FileEntry>, run: seq<Action>)
    requires Initial(t) && capacity.0 > 0 && capacity.1 > 0 && Complete(u, es)
    ensures SetUpModeA(t).reader.Some?
    ensures var c := ModeA(t, capacity, u, report, es);
            Execute(c, Start(c), run).Some? ==>
              var s := Execute(c, Start(c), run).value;
              && |run| <= Measure(c, Start(c)) && !s.host.ReaderFailed?
              && (s.host.Finished? || exists a :: Enabled(c, s, a))
              && (s.host.Finished? ==>
                    && s.host.report == report(Reception(u, es).value.frames)
                    && s.children == [Exited(Serialize(u, es))])
  {
    hide Enabled, Measure, Serialize, Complete, SetUpModeA, ReaderProgram, Reception, Ends;
    ModeAWired(t, capacity, u, report, es);
    ReaderFeeds(u, report, es);
    var c := ModeA(t, capacity, u, report, es);
    assert Flow(c, 0) == Serialize(u, es);
    if Execute(c, Start(c), run).Some? {
      EveryRunDelivers(c, run);
    }
  }

  /** Whatever the file set: if a Mode A run finishes, the parser accepts the host's stream, and the host
      holds exactly the report on the frames received. */
  lemma {:induction false} ModeAFinishes(t: Table, capacity: (nat, nat), u: Utf8, report: seq<Frame> -> seq<byte>,
                      es: seq<FileEntry>, run: seq<Action>)
    requires Initial(t) && capacity.0 > 0 && capacity.1 > 0
    ensures SetUpModeA(t).reader.Some?
    ensures var c := ModeA(t, capacity, u, report, es);
            Execute(c, Start(c), run).Some? && Execute(c, Start(c), run).value.host.Finished? ==>
              && Reception(u, es).Ok?
              && Execute(c, Start(c), run).value.host.report == report(Reception(u, es).value.frames)
  {
    hide Serialize, SetUpModeA, ReaderProgram, Reception, Ends, Execute, Wired;
    ModeAWired(t, capacity, u, report, es);
    var c := ModeA(t, capacity, u, report, es);
    if Execute(c, Start(c), run).Some? && Execute(c, Start(c), run).value.host.Finished? {
      EveryRunIsSafe(c, run);
      ReaderIsSteady(u, report, es, Execute(c, Start(c), run).value.children[0].got);
    }
  }

  /** Exactly when a Mode A run can hang. Either the stream is cut short, and the reader has inherited a write
      end of its own input, so that the end it waits for never comes. Or the parser accepts early: the host
      still feeds a reader that has stopped reading, while the reader writes a report that nobody reads yet,
      and neither the rest of the stream nor the report fits its pipe. */
  lemma {:induction false} ModeAHangs(t: Table, capacity: (nat, nat), u: Utf8,
                                      report: seq<Frame> -> seq<byte>, es: seq<FileEntry>)
    requires Initial(t) && capacity.0 > 0 && capacity.1 > 0
    ensures SetUpModeA(t).reader.Some?
    ensures CanHang(ModeA(t, capacity, u, report, es)) <==>
              || (CutShort(u, es) && OpenPipe(t, 0).w != 5)
              || (Reception(u, es).Ok? && |Serialize(u, es)| > Reception(u, es).value.used + capacity.0
                  && |report(Reception(u, es).value.frames)| > capacity.1)
  {
    hide Serialize, SetUpModeA, ReaderProgram, Reception, Ends, CanHang, OpenPipe, Parse, Steady, VerdictAt;
    ModeAWired(t, capacity, u, report, es);
    var c := ModeA(t, capacity, u, report, es);
    ReaderTurns(c, u, report, es);
    ReaderIsSteady(u, report, es, c.stream);
    VerdictPlace(u, es);
    AloneHangs(c, VerdictAt(u, es));
  }

  // ---------------------------------------------------------------- Mode B

  /** The messages the inference process should receive. */
  function Sending(u: Utf8, nonceHex: string, es: seq<FileEntry>): seq<Message>
    requires Reception(u, es).Ok?
  {
    Messages(nonceHex, Reception(u, es).value.frames)
  }

  /** The inference process waits on every proper prefix of the messages, and is done at their end. */
  lemma {:induction false} PrivFeeds(j: Json, nonceHex: string, report: seq<Message> -> seq<byte>, frames: seq<Frame>)
    requires j.Lawful()
    ensures var ms := Messages(nonceHex, frames);
            && PrivProgram(j, report)(Lines(j, ms)) == Verdict.Done(report(ms))
            && forall k: nat | k < |Lines(j, ms)| :: PrivProgram(j, report)(Lines(j, ms)[..k]).More?
  {
    hide Lines, ReadLines, Messages;
    var lines := Lines(j, Messages(nonceHex, frames));
    HopRoundTrip(j, nonceHex, frames, [], false);
    assert lines + [] == lines;
  }

  /** Mode B, likewise, through both hops; and the host meets the end of the report only after both
      children are gone. */
  lemma {:induction false} ModeBDelivers(t: Table, capacity: (nat, nat, nat), u: Utf8, j: Json, nonceHex: string,
                      report: seq<Message> -> seq<byte>, es: seq<FileEntry>, run: seq<Action>)
    requires Initial(t) && capacity.0 > 0 && capacity.1 > 0 && capacity.2 > 0
    requires j.Lawful() && Complete(u, es)
    ensures SetUpModeB(t).bytes.Some? && SetUpModeB(t).priv.Some?
    ensures var c := ModeB(t, capacity, u, j, nonceHex, report, es);
            var ms := Sending(u, nonceHex, es);
            Execute(c, Start(c), run).Some? ==>
              var s := Execute(c, Start(c), run).value;
              && |run| <= Measure(c, Start(c)) && !s.host.ReaderFailed?
              && (s.host.Finished? || exists a :: Enabled(c, s, a))
              && (Enabled(c, s, HostEof) ==> s.children[0].Exited? && s.children[1].Exited?)
              && (s.host.Finished? ==>
                    && s.host.report == report(ms)
                    && s.children == [Exited(Serialize(u, es)), Exited(Lines(j, ms))])
  {
    hide Measure, Wired, ErrorFree, Serialize, SetUpModeB, PrivProgram, Ends, Messages, Lines, Execute, Reception;
    ModeBWired(t, capacity, u, j, nonceHex, report, es);
    var c := ModeB(t, capacity, u, j, nonceHex, report, es);
    ModeBIsErrorFree(c, t, capacity, u, j, nonceHex, report, es);
    if Execute(c, Start(c), run).Some? {
      EveryRunDelivers(c, run);
      var s := Execute(c, Start(c), run).value;
      if Enabled(c, s, HostEof) {
        assert !Live(s.children[0]) && !Live(s.children[1]);
      }
    }
  }

  lemma {:induction false} ModeBIsErrorFree(c: Chain, t: Table, capacity: (nat, nat, nat), u: Utf8, j: Json,
                                            nonceHex: string,
                         report: seq<Message> -> seq<byte>, es: seq<FileEntry>)
    requires SetUpModeB(t).bytes.Some? && SetUpModeB(t).priv.Some? && j.Lawful() && Complete(u, es)
    requires c == ModeB(t, capacity, u, j, nonceHex, report, es)
    ensures ErrorFree(c) && Flow(c, 0) == Serialize(u, es)
    ensures var ms := Sending(u, nonceHex, es);
            Flow(c, 1) == Lines(j, ms) && Flow(c, 2) == report(ms)
  {
    hide Serialize, SetUpModeB, Ends, Messages, Lines, PrivProgram, ReaderProgram, Reception;
    var frames := Reception(u, es).value.frames;
    ReaderFeeds(u, fs => Lines(j, Messages(nonceHex, fs)), es);
    PrivFeeds(j, nonceHex, report, frames);
    assert Flow(c, 0) == Serialize(u, es);
    assert Flow(c, 1) == Lines(j, Messages(nonceHex, frames));
  }

  /** Whatever the file set: if a Mode B run finishes, the parser accepts the host's stream, and the host
      holds exactly the report on the messages for the frames received. */
  lemma {:induction false} ModeBFinishes(t: Table, capacity: (nat, nat, nat), u: Utf8, j: Json, nonceHex: string,
                      report: seq<Message> -> seq<byte>, es: seq<FileEntry>, run: seq<Action>)
    requires Initial(t) && capacity.0 > 0 && capacity.1 > 0 && capacity.2 > 0
    ensures SetUpModeB(t).bytes.Some? && SetUpModeB(t).priv.Some?
    ensures var c := ModeB(t, capacity, u, j, nonceHex, report, es);
            Execute(c, Start(c), run).Some? && Execute(c, Start(c), run).value.host.Finished? ==>
              && Reception(u, es).Ok?
              && (j.Lawful() ==> Execute(c, Start(c), run).value.host.report == report(Sending(u, nonceHex, es)))
  {
    hide Serialize, SetUpModeB, ReaderProgram, PrivProgram, PrivAtEof, Reception, Ends, Execute, Lines, Messages, Holds;
    ModeBWired(t, capacity, u, j, nonceHex, report, es);
    var c := ModeB(t, capacity, u, j, nonceHex, report, es);
    if Execute(c, Start(c), run).Some? && Execute(c, Start(c), run).value.host.Finished? {
      EveryRunIsSafe(c, run);
      StartSafe(c);
      RunSafe(c, Start(c), run);
      var s := Execute(c, Start(c), run).value;
      ReaderIsSteady(u, fs => Lines(j, Messages(nonceHex, fs)), es, s.children[0].got);
      if j.Lawful() {
        assert ChildSafe(c, s, 1);
        PrivTakesAll(j, nonceHex, report, Reception(u, es).value.frames, s.children[1].got);
      }
    }
  }

  lemma {:induction false} PrivTakesAll(j: Json, nonceHex: string,
                                        report: seq<Message> -> seq<byte>, frames: seq<Frame>, got: seq<byte>)
    requires j.Lawful() && got <= Lines(j, Messages(nonceHex, frames)) && !PrivProgram(j, report)(got).More?
    ensures PrivProgram(j, report)(got) == Verdict.Done(report(Messages(nonceHex, frames)))
  {
    hide Lines, PrivProgram, Messages;
    PrivFeeds(j, nonceHex, report, frames);
    var lines := Lines(j, Messages(nonceHex, frames));
    assert got == lines[..|got|];
    assert |got| == |lines| ==> got == lines;
  }

  /** Exactly when a Mode B run can hang. The stream is cut short: the bytes reader waits for an end of input
      that a child holds open. Or it is rejected, and the inference process waits for messages on a pipe that
      it itself holds open: this hangs the host unless it notices, by a failing write, and it can only do so
      if no copy of the failed reader's input is left and enough of the stream is still to come. Or it is
      accepted early, the inference process keeps such a copy, and both the rest of the stream and the
      report are longer than their pipes. */
  lemma {:induction false} ModeBHangs(t: Table, capacity: (nat, nat, nat), u: Utf8, j: Json, nonceHex: string,
                   report: seq<Message> -> seq<byte>, es: seq<FileEntry>)
    requires Initial(t) && capacity.0 > 0 && capacity.1 > 0 && capacity.2 > 0 && j.Lawful()
    ensures SetUpModeB(t).bytes.Some? && SetUpModeB(t).priv.Some?
    ensures var kept := OpenPipe(t, 0).r != 3 && OpenPipe(t, 0).r != 5;
            CanHang(ModeB(t, capacity, u, j, nonceHex, report, es)) <==>
              || CutShort(u, es)
              || (Reception(u, es).Err? && !CutShort(u, es)
                  && (kept || |Serialize(u, es)| < VerdictAt(u, es) + 2 * capacity.0))
              || (Reception(u, es).Ok? && kept
                  && |Serialize(u, es)| > Reception(u, es).value.used + capacity.0
                  && |report(Sending(u, nonceHex, es))| > capacity.2)
  {
    hide Serialize, SetUpModeB, ReaderProgram, Reception, Ends, CanHang, Parse, PrivProgram, Lines, Messages, Holds,
      Steady, VerdictAt, OpenPipe, Fed;
    ModeBWired(t, capacity, u, j, nonceHex, report, es);
    var c := ModeB(t, capacity, u, j, nonceHex, report, es);
    ReaderTurns(c, u, fs => Lines(j, Messages(nonceHex, fs)), es);
    ReaderIsSteady(u, fs => Lines(j, Messages(nonceHex, fs)), es, c.stream);
    VerdictPlace(u, es);
    ModeBFed(c, t, capacity, u, j, nonceHex, report, es);
    if Reception(u, es).Ok? {
      PrivFeeds(j, nonceHex, report, Reception(u, es).value.frames);
    }
    WaitAtStart(u, j, nonceHex, report);
    PairHangs(c, VerdictAt(u, es));
  }

  lemma {:induction false} ModeBFed(c: Chain, t: Table, capacity: (nat, nat, nat), u: Utf8, j: Json, nonceHex: string,
                                    report: seq<Message> -> seq<byte>, es: seq<FileEntry>)
    requires SetUpModeB(t).bytes.Some? && SetUpModeB(t).priv.Some? && j.Lawful()
    requires c == ModeB(t, capacity, u, j, nonceHex, report, es)
    ensures Fed(c)
  {
    hide Serialize, SetUpModeB, ReaderProgram, Reception, Ends, Parse, PrivProgram, Lines, Messages;
    forall g: seq<byte> | g <= c.stream && Decision(c, 0, g).Done?
      ensures var out := Decision(c, 0, g).output;
              c.programs[1](out).Done? && forall k: nat | k < |out| :: c.programs[1](out[..k]).More?
    {
      ReaderIsSteady(u, fs => Lines(j, Messages(nonceHex, fs)), es, g);
      PrivFeeds(j, nonceHex, report, Reception(u, es).value.frames);
    }
  }

  lemma {:induction false} WaitAtStart(u: Utf8, j: Json, nonceHex: string, report: seq<Message> -> seq<byte>)
    ensures BytesProgram(u, j, nonceHex)([]).More? && PrivProgram(j, report)([]).More?
  {
    hide Parse;
    StreamIsLong(u, []);
    assert LineLength([]).None?;
    assert ReadLines(j, [], false).More?;
  }

  /** Cut short, no Mode B run ever ends: not one of them finishes or fails, at any capacity. */
  lemma {:induction false} ModeBNeverEnds(t: Table, capacity: (nat, nat, nat), u: Utf8, j: Json, nonceHex: string,
                       report: seq<Message> -> seq<byte>, es: seq<FileEntry>, run: seq<Action>)
    requires Initial(t) && capacity.0 > 0 && capacity.1 > 0 && capacity.2 > 0 && CutShort(u, es)
    ensures SetUpModeB(t).bytes.Some? && SetUpModeB(t).priv.Some?
    ensures var c := ModeB(t, capacity, u, j, nonceHex, report, es);
            Execute(c, Start(c), run).Some? ==> !Ended(Execute(c, Start(c), run).value)
  {
    hide Serialize, SetUpModeB, ReaderProgram, Reception, Ends, Parse, PrivProgram, Lines, Messages, Holds, Execute;
    ModeBWired(t, capacity, u, j, nonceHex, report, es);
    var c := ModeB(t, capacity, u, j, nonceHex, report, es);
    forall n: nat | n <= |c.stream|
      ensures c.programs[0](c.stream[..n]).More?
    {
      ReaderIsSteady(u, fs => Lines(j, Messages(nonceHex, fs)), es, c.stream[..n]);
    }
    WaitAtStart(u, j, nonceHex, report);
    assert Hungry(c);
    if Execute(c, Start(c), run).Some? {
      StarvedNeverEnds(c, if WriteEnd(0) in c.ends[0] then 0 else 1, run);
    }
  }

  // ---------------------------------------------------------------- two causes from outside

  /** What the host writes of an entry before its content. */
  function Framing(u: Utf8, e: FileEntry): seq<byte> {
    var rel := u.encode(u.lossy(e.relative));
    Le(|rel|, 4) + rel + Le(e.size, 8)
  }

  /** The walk found the first file as long as the framing of the second, and it was empty when read. The
      second holds what the host writes for a third, a trailer, and some more. */
  predicate Nested(u: Utf8, e0: FileEntry, e1: FileEntry, inner: FileEntry, rest: seq<byte>) {
    && e0.bytes == [] && e0.size == |Framing(u, e1)|
    && e1.bytes == SerializeEntry(u, inner) + MAGIC_TRAILER + rest
  }

  lemma {:induction false} NestedStream(u: Utf8, e0: FileEntry, e1: FileEntry, inner: FileEntry, rest: seq<byte>)
    requires Nested(u, e0, e1, inner, rest)
    ensures Serialize(u, [e0, e1])
         == Serialize(u, [e0.(bytes := Framing(u, e1)), inner]) + (rest + MAGIC_TRAILER)
  {
    hide Le;
    var seen := e0.(bytes := Framing(u, e1));
    TwoEntries(u, e0, e1);
    TwoEntries(u, seen, inner);
    assert SerializeEntry(u, e0) == Framing(u, e0) + [];
    assert Framing(u, seen) == Framing(u, e0);
    SerializedTwice(Wire.Header([0, 0], 2), Framing(u, e0), Framing(u, e1), SerializeEntry(u, inner), rest);
  }

  lemma {:induction false} TwoEntries(u: Utf8, a: FileEntry, b: FileEntry)
    ensures Serialize(u, [a, b])
         == Wire.Header([0, 0], 2) + (Framing(u, a) + a.bytes + (Framing(u, b) + b.bytes)) + MAGIC_TRAILER
  {
    hide Le, Wire.Header;
    assert [a, b][1..] == [b] && [b][1..] == [];
    assert SerializeEntries(u, [b]) == SerializeEntry(u, b) + [];
  }

  lemma {:induction false} SerializedTwice(header: seq<byte>, f: seq<byte>, g: seq<byte>, inner: seq<byte>,
                                           rest: seq<byte>)
    ensures header + (f + [] + (g + (inner + MAGIC_TRAILER + rest))) + MAGIC_TRAILER
         == header + (f + g + inner) + MAGIC_TRAILER + (rest + MAGIC_TRAILER)
  {
  }

  /** The parser accepts a nested stream at the inner trailer: the first file with the second one's framing
      for its content, and the file inside the second. */
  lemma {:induction false} NestedIsAccepted(u: Utf8, e0: FileEntry, e1: FileEntry, inner: FileEntry, rest: seq<byte>)
    requires u.Lawful() && Nested(u, e0, e1, inner, rest)
    requires EntryFits(u, e0.(bytes := Framing(u, e1))) && EntryFits(u, inner)
    ensures var seen := [e0.(bytes := Framing(u, e1)), inner];
            && Reception(u, [e0, e1]) == Ok(Parsed(Expected(u, seen), |Serialize(u, seen)|))
            && |Serialize(u, [e0, e1])| == |Serialize(u, seen)| + |rest| + 4
  {
    hide Serialize, Parse, Framing, SerializeEntry, EntryFits;
    var seen := [e0.(bytes := Framing(u, e1)), inner];
    NestedStream(u, e0, e1, inner, rest);
    assert Fits(u, seen);
    RoundTrip(u, seen, rest + MAGIC_TRAILER);
  }

  /** An accepted stream can hang Mode A, whatever descriptors were open: a nested one with a tail longer than
      the first pipe and a report longer than the second. */
  lemma {:induction false} NestedHangs(t: Table, capacity: (nat, nat), u: Utf8, report: seq<Frame> -> seq<byte>,
                                       e0: FileEntry, e1: FileEntry, inner: FileEntry, rest: seq<byte>)
    requires Initial(t) && capacity.0 > 0 && capacity.1 > 0 && u.Lawful() && Nested(u, e0, e1, inner, rest)
    requires EntryFits(u, e0.(bytes := Framing(u, e1))) && EntryFits(u, inner)
    ensures Reception(u, [e0, e1]).Ok?
    ensures SetUpModeA(t).reader.Some?
    ensures |rest| + 4 > capacity.0 && |report(Reception(u, [e0, e1]).value.frames)| > capacity.1 ==>
              CanHang(ModeA(t, capacity, u, report, [e0, e1]))
  {
    hide Serialize, Reception, CanHang, SetUpModeA, Framing, EntryFits, Nested, ModeA, Expected, OpenPipe;
    NestedIsAccepted(u, e0, e1, inner, rest);
    ModeAHangs(t, capacity, u, report, [e0, e1]);
  }

  /** A first path over the limit is rejected with its length field, 16 bytes into the stream. */
  lemma {:induction false} LongPathVerdict(u: Utf8, es: seq<FileEntry>)
    requires 0 < |es| <= MAX_ENTRIES
    requires MAX_PATH_LEN < |u.encode(u.lossy(es[0].relative))| < 0x1_0000_0000
    ensures Reception(u, es) == Err(TooLarge(|u.encode(u.lossy(es[0].relative))|)) && VerdictAt(u, es) == 16
  {
    hide Serialize, Parse, VerdictAt;
    LongPathIsRejected(u, es);
    LengthIsRead(u, es);
    LengthIsAwaited(u, es);
    VerdictAround(u, es, 15);
    VerdictAround(u, es, 16);
  }

  lemma {:induction false} LengthIsRead(u: Utf8, es: seq<FileEntry>)
    requires 0 < |es| <= MAX_ENTRIES
    requires MAX_PATH_LEN < |u.encode(u.lossy(es[0].relative))| < 0x1_0000_0000
    ensures |Serialize(u, es)| >= 16 && Parse(u, Serialize(u, es)[..16]) != Err(UnexpectedEof)
  {
    hide Serialize, FromLe, Le, SerializeEntry, SerializeEntries;
    var rel := u.encode(u.lossy(es[0].relative));
    StreamLayout(u, es, []);
    var s := Serialize(u, es);
    assert s + [] == s;
    var rest := SerializeEntries(u, es[1..]) + (MAGIC_TRAILER + []);
    FirstEntry(u, es, MAGIC_TRAILER + []);
    EntryLayout(u, es[0], rest);
    SmallField(|rel|, 4);
    SmallField(|es|, 4);
    LeRoundTrip(VERSION, 2);
    FieldWidths();
    var h := s[..16];
    assert h[12..] == s[12..][..4] == Le(|rel|, 4) && h[12..][..4] == h[12..];
    assert h[..4] == s[..4] && h[4..6] == s[4..6] && h[8..12] == s[8..12];
    assert ParseEntry(u, h[12..]) == Err(TooLarge(|rel|));
    assert ParseEntries(u, h[12..], |es|) == Err(TooLarge(|rel|));
  }

  lemma {:induction false} LengthIsAwaited(u: Utf8, es: seq<FileEntry>)
    requires 0 < |es| <= MAX_ENTRIES && |Serialize(u, es)| >= 16
    ensures Parse(u, Serialize(u, es)[..15]) == Err(UnexpectedEof)
  {
    hide Serialize, FromLe, Le, SerializeEntry, SerializeEntries;
    StreamLayout(u, es, []);
    var s := Serialize(u, es);
    assert s + [] == s;
    SmallField(|es|, 4);
    LeRoundTrip(VERSION, 2);
    FieldWidths();
    var h := s[..15];
    assert h[..4] == s[..4] && h[4..6] == s[4..6] && h[8..12] == s[8..12];
    assert ParseEntry(u, h[12..]) == Err(UnexpectedEof);
    assert ParseEntries(u, h[12..], |es|) == Err(UnexpectedEof);
  }

  /** Whether a long path hangs Mode B turns on where the host's first pipe was opened: if its read end took
      descriptor 3 or 5, a `dup2` takes the inference process's copy away, and the host can notice. */
  lemma {:induction false} LongPathHangs(t: Table, capacity: (nat, nat, nat), u: Utf8, j: Json, nonceHex: string,
                                         report: seq<Message> -> seq<byte>, es: seq<FileEntry>)
    requires Initial(t) && capacity.0 > 0 && capacity.1 > 0 && capacity.2 > 0 && j.Lawful()
    requires 0 < |es| <= MAX_ENTRIES
    requires MAX_PATH_LEN < |u.encode(u.lossy(es[0].relative))| < 0x1_0000_0000
    ensures SetUpModeB(t).bytes.Some? && SetUpModeB(t).priv.Some?
    ensures CanHang(ModeB(t, capacity, u, j, nonceHex, report, es)) <==>
              (OpenPipe(t, 0).r != 3 && OpenPipe(t, 0).r != 5) || |Serialize(u, es)| < 16 + 2 * capacity.0
  {
    hide Serialize, Reception, CanHang, SetUpModeB, ModeB, OpenPipe, VerdictAt;
    LongPathVerdict(u, es);
    ModeBHangs(t, capacity, u, j, nonceHex, report, es);
  }
}
