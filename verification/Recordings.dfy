/** What the check of a recording is worth: a trace in which recognised calls stand between any other lines,
    parsed and searched for the canary. */
module Recordings {
  import opened Bytes
  import opened Text
  import opened Boundary
  import opened Strace
  import opened TraceCheck
  import opened StraceLines
  import opened StraceForms

  /** A line that records a call, or any line that records nothing. */
  datatype Entry = Made(lead: Lead, call: Call) | Other(line: seq<byte>)

  ghost predicate EntryOk(e: Entry) {
    match e
    case Made(lead, call) => Leads(lead) && CallOk(call)
    case Other(line) => forall x :: !Records(line, x)
  }

  function EntryText(e: Entry): seq<byte> {
    match e
    case Made(lead, call) => LeadText(lead) + CallText(call)
    case Other(line) => line
  }

  function Recording(es: seq<Entry>): seq<seq<byte>> {
    if es == [] then [] else [EntryText(es[0])] + Recording(es[1..])
  }

  /** The calls that were made, in order. */
  function CallsIn(es: seq<Entry>): seq<Call> {
    if es == [] then [] else (if es[0].Made? then [es[0].call] else []) + CallsIn(es[1..])
  }

  function SeenAll(calls: seq<Call>): (es: seq<Recorded>)
    ensures |es| == |calls| && forall k | 0 <= k < |es| :: es[k] == Seen(calls[k])
  {
    if calls == [] then [] else [Seen(calls[0])] + SeenAll(calls[1..])
  }

  ghost predicate RecordingOk(es: seq<Entry>) {
    forall e <- es :: EntryOk(e)
  }

  lemma {:induction false} EntryIsRead(e: Entry)
    requires EntryOk(e)
    ensures ParseLine(EntryText(e)) == match e case Made(_, call) => Some(Seen(call)) case Other(_) => None
  {
    hide ParseLine, LeadText, CallText, LeadOk, CallOk, Leads, Seen, Records;
    match e
    case Made(lead, call) =>
      LeadsOk(lead);
      LineRoundTrip(lead, call);
    case Other(line) =>
      if ParseLine(line).Some? {
        LineIsExact(line, ParseLine(line).value);
      }
  }

  lemma {:induction false} RecordingRoundTrip(es: seq<Entry>)
    requires RecordingOk(es)
    ensures ParseStrace(Recording(es)) == SeenAll(CallsIn(es))
  {
    hide ParseLine, EntryText, EntryOk, Seen;
    if es != [] {
      EntryIsRead(es[0]);
      RecordingRoundTrip(es[1..]);
      assert Recording(es)[1..] == Recording(es[1..]);
      if es[0].Made? {
        assert CallsIn(es)[1..] == CallsIn(es[1..]);
      }
    }
  }

  /** A leak the recording cannot show: through the arguments or the environment of an execution. */
  predicate LeaksUnseen(c: Call, canary: seq<byte>) {
    c.CallExec? && !ContainsSubsequence(c.path, canary)
  }

  lemma {:induction false} SeenLeaks(c: Call, canary: seq<byte>)
    requires Survives(canary)
    ensures Leaks(Seen(c), canary) <==> Leaks(Actual(c), canary) && !LeaksUnseen(c, canary)
  {
    hide ContainsSubsequence, Escape, Survives;
    match c
    case CallOpen(_, _, path, _) => EscapeKeeps(path, canary);
    case CallExec(_, _, path, _, _, _) => EscapeKeeps(path, canary);
    case CallWrite(_, _, data, _) => EscapeKeeps(data, canary);
    case _ =>
  }

  /** The verdict on a recording, for any canary: accepted exactly when no call leaks as it is seen, its
      strings escaped and an execution's arguments and environment dropped. */
  lemma {:induction false} RecordingVerdict(es: seq<Entry>, canary: seq<byte>)
    requires RecordingOk(es)
    ensures FirstViolation(ParseStrace(Recording(es)), canary).None?
       <==> forall c <- CallsIn(es) :: !Leaks(Seen(c), canary)
  {
    hide ParseStrace, Recording, EntryOk, Seen, Leaks, FirstViolation, CallsIn;
    RecordingRoundTrip(es);
    var calls := CallsIn(es);
    var seen := SeenAll(calls);
    CheckIsExact(seen, canary);
    forall k | 0 <= k < |calls|
      ensures seen[k] in seen && calls[k] in calls
    {
    }
  }

  /** The check of this recording accepts exactly when its calls leak, if at all, only unseen. */
  ghost predicate Judged(es: seq<Entry>, canary: seq<byte>) {
    FirstViolation(ParseStrace(Recording(es)), canary).None?
    <==> forall c <- CallsIn(es) :: Leaks(Actual(c), canary) ==> LeaksUnseen(c, canary)
  }

  /** Exactly what the check of recordings misses. For a canary that survives the escape, on every recording:
      the leaks through the arguments or the environment of executions, and nothing else. For any other
      canary there is a recording on which it misses a further leak or reports one that is not there. */
  lemma {:induction false} RecordingIsChecked(canary: seq<byte>)
    ensures Survives(canary) <==> forall es | RecordingOk(es) :: Judged(es, canary)
  {
    hide Survives, Judged, EntryOk;
    if Survives(canary) {
      forall es | RecordingOk(es)
        ensures Judged(es, canary)
      {
        SurvivorIsJudged(es, canary);
      }
    } else {
      var b := EscapeChanges(canary);
      OpenMisjudged(b, canary);
    }
  }

  lemma {:induction false} SurvivorIsJudged(es: seq<Entry>, canary: seq<byte>)
    requires Survives(canary) && RecordingOk(es)
    ensures Judged(es, canary)
  {
    hide Survives, FirstViolation, ParseStrace, Recording, Seen, Actual, Leaks, LeaksUnseen, EntryOk, CallsIn;
    RecordingVerdict(es, canary);
    forall c <- CallsIn(es)
      ensures Leaks(Seen(c), canary) <==> Leaks(Actual(c), canary) && !LeaksUnseen(c, canary)
    {
      SeenLeaks(c, canary);
    }
  }

  /** The recording of one opened file. */
  lemma {:induction false} OpenMisjudged(path: seq<byte>, canary: seq<byte>)
    requires ContainsSubsequence(Escape(path), canary) != ContainsSubsequence(path, canary)
    ensures RecordingOk([Made(Bare([]), CallOpen(false, [], path, []))])
    ensures !Judged([Made(Bare([]), CallOpen(false, [], path, []))], canary)
  {
    hide ContainsSubsequence, Escape, FirstViolation, ParseStrace, Recording;
    var c := CallOpen(false, [], path, []);
    var es := [Made(Bare([]), c)];
    OneCall(es[0]);
    RecordingVerdict(es, canary);
  }

  lemma {:induction false} OneCall(e: Entry)
    requires e.Made?
    ensures CallsIn([e]) == [e.call] && e.call in [e.call]
  {
    assert [e][1..] == [];
  }

  /** One such canary, and a leak of it that is missed: an `a` and a quote, written to descriptor 2. */
  lemma {:induction false} QuotedCanaryIsMissed()
    ensures var (canary, c) := ([97, QUOTE], CallWrite(2, [], [97, QUOTE], []));
            && RecordingOk([Made(Bare([]), c)])
            && Leaks(Actual(c), canary) && !LeaksUnseen(c, canary)
            && FirstViolation(ParseStrace(Recording([Made(Bare([]), c)])), canary).None?
  {
    hide FirstViolation, ParseStrace, Recording, Occurs;
    var canary: seq<byte> := [97, QUOTE];
    var c := CallWrite(2, [], canary, []);
    RecordingVerdict([Made(Bare([]), c)], canary);
    assert canary[0..] == canary;
    OccursIsPrefix(canary, canary, 0);
    SearchIs(canary, canary, 0);
    assert canary[1..] == [QUOTE];
    assert Unescapes([QUOTE]).None?;
    NotInEscapes(canary);
  }
}
