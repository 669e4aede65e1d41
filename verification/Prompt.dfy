/** Nonce-delimited prompts: the text between the begin and end markers of a file can be found again by
    plain string search, and is that file's content. */
module Prompt {
  import opened Bytes
  import opened Text
  import opened Wording
  import opened Wire
  import Base64

  /** Lower-case hexadecimal. */
  function Digit(v: nat): char
    requires v < 16
  {
    if v < 10 then (48 + v) as char else (87 + v) as char
  }

  function Hex(b: seq<byte>): string {
    if b == [] then "" else [Digit(b[0] / 16), Digit(b[0] % 16)] + Hex(b[1..])
  }

  /** None of the characters that delimit pieces of a prompt. */
  predicate Plain(s: string) {
    '<' !in s && '"' !in s && '\n' !in s && ' ' !in s && '&' !in s && ';' !in s
  }

  lemma {:induction false} HexIsPlain(b: seq<byte>)
    ensures Plain(Hex(b))
  {
    if b != [] {
      HexIsPlain(b[1..]);
    }
  }

  /** The value of a hexadecimal digit: its place among the sixteen. */
  function Place(c: char): Option<nat> {
    First([c], "0123456789abcdef", 0)
  }

  lemma {:induction false} DigitPlace(v: nat)
    requires v < 16
    ensures Place(Digit(v)) == Some(v)
  {
    hide Digit;
    DigitIs(v);
    var all := "0123456789abcdef";
    assert all[v..v + 1] == [all[v]];
    assert Occurs([Digit(v)], all, v);
    forall i | 0 <= i < v
      ensures !Occurs([Digit(v)], all, i)
    {
      assert all[i..i + 1] == [all[i]];
      DigitIs(i);
      DigitsDiffer(i, v);
    }
  }

  lemma {:induction false} DigitIs(v: nat)
    requires v < 16
    ensures "0123456789abcdef"[v] == Digit(v)
  {
  }

  lemma {:induction false} DigitsDiffer(v: nat, w: nat)
    requires v < w < 16
    ensures Digit(v) != Digit(w)
  {
  }

  /** Two digits for each byte, the higher first, and no byte is lost. */
  lemma {:induction false} HexIsExact(b: seq<byte>)
    ensures |Hex(b)| == 2 * |b|
    ensures forall k: nat | k < |b| ::
              var (high, low) := (Place(Hex(b)[2 * k]), Place(Hex(b)[2 * k + 1]));
              high.Some? && low.Some? && 16 * high.value + low.value == b[k]
  {
    hide Digit, Place;
    if b != [] {
      HexIsExact(b[1..]);
      DigitPlace(b[0] / 16);
      DigitPlace(b[0] % 16);
      var h, t := Hex(b), Hex(b[1..]);
      forall k: nat | k < |b|
        ensures var (high, low) := (Place(h[2 * k]), Place(h[2 * k + 1]));
                high.Some? && low.Some? && 16 * high.value + low.value == b[k]
      {
        if k > 0 {
          assert h[2 * k] == t[2 * (k - 1)] && h[2 * k + 1] == t[2 * (k - 1) + 1] && b[k] == b[1..][k - 1];
        }
      }
    }
  }

  function Begin(n: string): string {
    "<bytes-begin-" + n + ">"
  }

  function End(n: string): string {
    "<bytes-end-" + n + ">"
  }

  predicate IsMarker(p: string, n: string) {
    p == Begin(n) || p == End(n)
  }

  /** A path as printed, and the base64 text of its content. */
  datatype Section = Section(path: string, content: string)

  /** One file of a prompt, followed by `rest`. */
  function Show(n: string, s: Section, rest: string): string {
    "<file path=" + ['"'] + (s.path + ['"'] + (">" + ['\n'] + (Begin(n) + ['\n']
    + (s.content + ['\n'] + (End(n) + ['\n'] + ("</file>" + ['\n'] + rest))))))
  }

  function Body(n: string, ss: seq<Section>, rest: string): string {
    if ss == [] then rest else Show(n, ss[0], Body(n, ss[1..], rest))
  }

  /** The replacement of `"` in a path; it is not injective. */
  function Escape(path: string): string {
    if path == "" then ""
    else if path[0] == '"' then "&quot;" + Escape(path[1..])
    else [path[0]] + Escape(path[1..])
  }

  /** What the replacement does: it leaves text without quotes alone, and each quote becomes an entity. */
  lemma {:induction false} EscapeIs(a: string, b: string)
    ensures '"' !in a ==> Escape(a) == a
    ensures Escape(a + ['"'] + b) == Escape(a) + "&quot;" + Escape(b)
  {
    hide Escape;
    EscapeOne('"', b);
    if a == "" {
      assert a + ['"'] + b == ['"'] + b;
    } else {
      EscapeIs(a[1..], b);
      var c := a[1..] + ['"'] + b;
      assert a + ['"'] + b == [a[0]] + c && a == [a[0]] + a[1..];
      EscapeOne(a[0], c);
      EscapeOne(a[0], a[1..]);
    }
  }

  lemma {:induction false} EscapeOne(c: char, t: string)
    ensures Escape("") == "" && Escape([c] + t) == (if c == '"' then "&quot;" else [c]) + Escape(t)
  {
    assert ([c] + t)[1..] == t;
  }

  /** The end of a prompt, in either mode: the closing tag and a task text. */
  function Ending(n: string, task: string): string {
    "<files-end-" + n + ">" + ['\n'] + ("" + ['\n'] + ("<task>" + ['\n']
    + (task + ['\n'] + ("</task>" + ['\n'] + ""))))
  }

  // ---------------------------------------------------------------- Mode A

  function Opening(n: string, rest: string): string {
    "<system>" + ['\n'] + (Say(SYSTEM_RULES) + Say(ONLY_TASK) + [' '] + ("<task>." + [' ']
    + (Say(NONCE_IS) + n + Say(ONLY_TRUSTED) + ['\n'] + ("</system>" + ['\n'] + ("" + ['\n']
    + ("<files-begin-" + n + ">" + ['\n'] + rest))))))
  }

  function Closing(n: string): string {
    Ending(n, Say(TASK_SCHEMA) + Say(TASK_ADVICE) + n + ".")
  }

  function Sections(frames: seq<Frame>): (ss: seq<Section>)
    ensures |ss| == |frames|
    ensures forall k | 0 <= k < |ss| ::
              ss[k] == Section(Escape(frames[k].relativePath), Base64.Encode(frames[k].bytes))
  {
    if frames == [] then []
    else [Section(Escape(frames[0].relativePath), Base64.Encode(frames[0].bytes))] + Sections(frames[1..])
  }

  function PromptText(nonce: seq<byte>, frames: seq<Frame>): string {
    var n := Hex(nonce);
    Opening(n, Body(n, Sections(frames), Closing(n)))
  }

  /** A section as the assembler prints it, piece after piece. */
  lemma {:induction false} ShowPieces(n: string, s: Section, out: string, rest: string)
    ensures out + Show(n, s, rest)
         == out + ("<file path=\"" + s.path + "\">\n") + ("<bytes-begin-" + n + ">\n") + s.content
            + ("\n<bytes-end-" + n + ">\n") + "</file>\n" + rest
  {
    var tail := "</file>" + ['\n'] + rest;
    PathPiece(s.path, Begin(n) + ['\n'] + (s.content + ['\n'] + (End(n) + ['\n'] + tail)));
    MarkedPieces(n, s.content, tail);
    assert tail == "</file>\n" + rest;
    Reassociate(out, "<file path=\"" + s.path + "\">\n", "<bytes-begin-" + n + ">\n", s.content,
                "\n<bytes-end-" + n + ">\n", "</file>\n", rest);
  }

  lemma {:induction false} PathPiece(path: string, more: string)
    ensures "<file path=" + ['"'] + (path + ['"'] + (">" + ['\n'] + more)) == ("<file path=\"" + path + "\">\n") + more
  {
  }

  lemma {:induction false} MarkedPieces(n: string, content: string, tail: string)
    ensures Begin(n) + ['\n'] + (content + ['\n'] + (End(n) + ['\n'] + tail))
         == ("<bytes-begin-" + n + ">\n") + (content + (("\n<bytes-end-" + n + ">\n") + tail))
  {
  }

  lemma {:induction false} Reassociate(a: string, b: string, c: string, d: string, e: string, f: string, g: string)
    ensures a + (b + (c + (d + (e + (f + g))))) == a + b + c + d + e + f + g
  {
  }

  lemma {:induction false} OpeningPieces(n: string, rules: string, only: string, tag: string, trusted: string,
                                         rest: string)
    requires rules == Say(SYSTEM_RULES) && only == Say(ONLY_TASK) && tag == Say(NONCE_IS)
    requires trusted == Say(ONLY_TRUSTED)
    ensures Opening(n, rest)
         == "<system>\n" + (rules + only + " <task>. " + tag) + n + (trusted + "\n</system>\n\n")
            + ("<files-begin-" + n + ">\n") + rest
  {
    hide Say;
    var files := "<files-begin-" + n + ">" + ['\n'] + rest;
    var before := "<system>\n" + (rules + only + " <task>. " + tag) + n;
    OpeningTail(trusted, files);
    OpeningHead(rules + only, tag, n, trusted, "</system>" + ['\n'] + ("" + ['\n'] + files));
    assert files == ("<files-begin-" + n + ">\n") + rest;
    Regroup(before, trusted + "\n</system>\n\n", files);
    Regroup(before + (trusted + "\n</system>\n\n"), "<files-begin-" + n + ">\n", rest);
  }

  lemma {:induction false} OpeningTail(trusted: string, files: string)
    ensures trusted + ['\n'] + ("</system>" + ['\n'] + ("" + ['\n'] + files)) == (trusted + "\n</system>\n\n") + files
  {
  }

  lemma {:induction false} OpeningHead(rules: string, tag: string, n: string, trusted: string, later: string)
    ensures "<system>" + ['\n'] + (rules + [' '] + ("<task>." + [' '] + (tag + n + trusted + ['\n'] + later)))
         == "<system>\n" + (rules + " <task>. " + tag) + n + (trusted + ['\n'] + later)
  {
  }

  lemma {:induction false} ClosingPieces(n: string, schema: string, advice: string, out: string)
    requires schema == Say(TASK_SCHEMA) && advice == Say(TASK_ADVICE)
    ensures out + Closing(n)
         == out + ("<files-end-" + n + ">\n\n") + "<task>\n" + (schema + advice) + n + ".\n</task>\n"
  {
    hide Say;
  }

  /** The assembler: one string, grown piece by piece. */
  method Assemble(nonce: seq<byte>, frames: seq<Frame>) returns (out: string)
    ensures out == PromptText(nonce, frames)
  {
    hide Say, Hex, Escape, Base64.Encode, Show, Opening, Closing;
    var n := Hex(nonce);
    out := "<system>\n";
    out := out + (Say(SYSTEM_RULES) + Say(ONLY_TASK) + " <task>. " + Say(NONCE_IS));
    out := out + n;
    out := out + (Say(ONLY_TRUSTED) + "\n</system>\n\n");
    out := out + ("<files-begin-" + n + ">\n");
    ghost var ss := Sections(frames);
    OpeningPieces(n, Say(SYSTEM_RULES), Say(ONLY_TASK), Say(NONCE_IS), Say(ONLY_TRUSTED),
                  Body(n, ss, Closing(n)));
    out := AssembleFiles(n, frames, out, PromptText(nonce, frames));
    ClosingPieces(n, Say(TASK_SCHEMA), Say(TASK_ADVICE), out);
    out := out + ("<files-end-" + n + ">\n\n");
    out := out + "<task>\n";
    out := out + (Say(TASK_SCHEMA) + Say(TASK_ADVICE));
    out := out + n;
    out := out + ".\n</task>\n";
  }

  /** The loop over the frames. */
  method AssembleFiles(n: string, frames: seq<Frame>, opening: string, ghost goal: string)
    returns (out: string)
    requires goal == opening + Body(n, Sections(frames), Closing(n))
    ensures goal == out + Closing(n)
  {
    hide Say, Escape, Base64.Encode, Show, Closing;
    out := opening;
    ghost var ss := Sections(frames);
    var i := 0;
    while i < |frames|
      invariant i <= |frames|
      invariant goal == out + Body(n, ss[i..], Closing(n))
    {
      var f := frames[i];
      var safePath := Escape(f.relativePath);
      var encoded := Base64.Encode(f.bytes);
      assert ss[i..][0] == Section(safePath, encoded) && ss[i..][1..] == ss[i + 1..];
      ShowPieces(n, Section(safePath, encoded), out, Body(n, ss[i + 1..], Closing(n)));
      out := out + ("<file path=\"" + safePath + "\">\n");
      out := out + ("<bytes-begin-" + n + ">\n");
      out := out + encoded;
      out := out + ("\n<bytes-end-" + n + ">\n");
      out := out + "</file>\n";
      i := i + 1;
    }
    assert ss[i..] == [];
  }

  // ---------------------------------------------------------------- where markers can occur

  /** A piece in which no marker occurs: it may open one tag, at its start, and not a marker's. */
  predicate Quiet(a: string) {
    a != "" ==> '<' !in a[1..] && (a[0] == '<' ==> |a| > 1 && a[1] != 'b')
  }

  lemma {:induction false} QuietHasNoMarker(p: string, n: string, a: string, i: int)
    requires IsMarker(p, n) && Quiet(a)
    ensures !Occurs(p, a, i)
  {
    if Occurs(p, a, i) {
      assert i > 0 ==> a[i] in a[1..];
      OccursAtHead(p, a, i);
    }
  }

  /** Skipping a quiet piece and the separator after it. */
  lemma {:induction false} SkipQuiet(p: string, n: string, a: string, c: char, b: string, i: int)
    requires IsMarker(p, n) && Plain(n) && Quiet(a) && (c == '\n' || c == ' ' || c == '"')
    ensures Occurs(p, a + [c] + b, i) <==> Occurs(p, b, i - |a| - 1)
  {
    assert c !in p;
    OccursAround(p, a, c, b, i);
    QuietHasNoMarker(p, n, a, i);
  }

  /** Where the marker of a section starts, relative to the section. */
  function Slot(p: string, n: string, s: Section): nat {
    if p == Begin(n) then |s.path| + 15 else |s.path| + |Begin(n)| + |s.content| + 17
  }

  function ShowLength(n: string, s: Section): nat {
    |s.path| + |Begin(n)| + |s.content| + |End(n)| + 26
  }

  lemma {:induction false} MarkerInMarker(p: string, n: string, q: string, i: int)
    requires IsMarker(p, n) && IsMarker(q, n) && Plain(n)
    ensures Occurs(p, q, i) <==> p == q && i == 0
  {
    if Occurs(p, q, i) {
      OccursAtHead(p, q, i);
      assert q[i] == '<';
      assert i == 0;
      assert q[7] == p[7];
    }
    if p == q {
      assert q[0..|p|] == p;
    }
  }

  lemma {:induction false} TagsAreQuiet()
    ensures Quiet("<file path=") && Quiet(">") && Quiet("</file>") && Quiet("")
    ensures Quiet("<system>") && Quiet("</system>") && Quiet("<task>") && Quiet("</task>") && Quiet("<task>.")
  {
  }

  lemma {:induction false} ShowHasLength(n: string, s: Section, rest: string)
    ensures |Show(n, s, rest)| == ShowLength(n, s) + |rest|
    ensures Show(n, s, rest)[ShowLength(n, s)..] == rest
  {
  }

  /** The occurrences of a marker from a section on: its own slot, the printed path, and the rest. */
  lemma {:induction false} OccursInSection(p: string, n: string, s: Section, rest: string, i: int)
    requires IsMarker(p, n) && Plain(n) && '<' !in s.content
    ensures Occurs(p, Show(n, s, rest), i) <==>
            || i == Slot(p, n, s)
            || Occurs(p, s.path, i - 12)
            || Occurs(p, rest, i - ShowLength(n, s))
  {
    hide Occurs, IsMarker, Plain, Quiet, Show, Begin, End, AfterPath;
    MarkerLacksSeparators(p, n);
    ShowBegins(n, s, rest);
    OccursInPath(p, n, s.path, AfterPath(n, s.content, rest), i);
    OccursPastPath(p, n, s.content, rest, i - 13 - |s.path|);
    if p == Begin(n) {
      assert Slot(p, n, s) == |s.path| + 15;
    } else {
      assert Slot(p, n, s) == |s.path| + |Begin(n)| + |s.content| + 17;
    }
  }

  /** A section from the end of its path on. */
  function AfterPath(n: string, content: string, rest: string): string {
    ">" + ['\n'] + (Begin(n) + ['\n'] + (content + ['\n'] + (End(n) + ['\n'] + ("</file>" + ['\n'] + rest))))
  }

  /** The same up to the end of the path. */
  lemma {:induction false} OccursInPath(p: string, n: string, path: string, rest: string, i: int)
    requires IsMarker(p, n) && Plain(n)
    ensures Occurs(p, "<file path=" + ['"'] + (path + ['"'] + rest), i) <==>
            Occurs(p, path, i - 12) || Occurs(p, rest, i - 13 - |path|)
  {
    hide Occurs, IsMarker, Plain, Quiet, Begin, End;
    MarkerLacksSeparators(p, n);
    TagsAreQuiet();
    SkipQuiet(p, n, "<file path=", '"', path + ['"'] + rest, i);
    OccursAround(p, path, '"', rest, i - 12);
  }

  /** The same from the end of the path on. */
  lemma {:induction false} OccursPastPath(p: string, n: string, content: string, rest: string, i: int)
    requires IsMarker(p, n) && Plain(n) && '<' !in content
    ensures Occurs(p, AfterPath(n, content, rest), i) <==>
            || (p == Begin(n) && i == 2)
            || (p == End(n) && i == |Begin(n)| + |content| + 4)
            || Occurs(p, rest, i - |Begin(n)| - |content| - |End(n)| - 13)
  {
    var inner := Begin(n) + ['\n'] + (content + ['\n'] + (End(n) + ['\n'] + ("</file>" + ['\n'] + rest)));
    hide Occurs, IsMarker, Plain, Quiet, Begin, End;
    TagsAreQuiet();
    SkipQuiet(p, n, ">", '\n', inner, i);
    OccursInMarked(p, n, content, rest, i - 2);
  }

  lemma {:induction false} ShowBegins(n: string, s: Section, rest: string)
    ensures Show(n, s, rest) == "<file path=" + ['"'] + (s.path + ['"'] + AfterPath(n, s.content, rest))
  {
  }

  lemma {:induction false} OccursInMarked(p: string, n: string, content: string, rest: string, i: int)
    requires IsMarker(p, n) && Plain(n) && '<' !in content
    ensures var tail := "</file>" + ['\n'] + rest;
            Occurs(p, Begin(n) + ['\n'] + (content + ['\n'] + (End(n) + ['\n'] + tail)), i) <==>
            || (p == Begin(n) && i == 0)
            || (p == End(n) && i == |Begin(n)| + |content| + 2)
            || Occurs(p, rest, i - |Begin(n)| - |content| - |End(n)| - 11)
  {
    var r5 := End(n) + ['\n'] + ("</file>" + ['\n'] + rest);
    hide Occurs, IsMarker, Plain, Quiet, Begin, End;
    MarkerLacksSeparators(p, n);
    OccursAround(p, Begin(n), '\n', content + ['\n'] + r5, i);
    MarkerInMarker(p, n, Begin(n), i);
    ContentIsQuiet(content);
    SkipQuiet(p, n, content, '\n', r5, i - |Begin(n)| - 1);
    OccursFromEnd(p, n, rest, i - |Begin(n)| - |content| - 2);
  }

  lemma {:induction false} OccursFromEnd(p: string, n: string, rest: string, i: int)
    requires IsMarker(p, n) && Plain(n)
    ensures Occurs(p, End(n) + ['\n'] + ("</file>" + ['\n'] + rest), i) <==>
            || (p == End(n) && i == 0)
            || Occurs(p, rest, i - |End(n)| - 9)
  {
    hide Occurs, IsMarker, Plain, Quiet, Begin, End;
    MarkerLacksSeparators(p, n);
    TagsAreQuiet();
    OccursAround(p, End(n), '\n', "</file>" + ['\n'] + rest, i);
    MarkerInMarker(p, n, End(n), i);
    SkipQuiet(p, n, "</file>", '\n', rest, i - |End(n)| - 1);
  }

  lemma {:induction false} ContentIsQuiet(a: string)
    requires '<' !in a
    ensures Quiet(a)
  {
  }

  lemma {:induction false} MarkerLacksSeparators(p: string, n: string)
    requires IsMarker(p, n) && Plain(n)
    ensures '"' !in p && '\n' !in p && ' ' !in p && '&' !in p && ';' !in p && |p| >= 12
    ensures IsMarker(Begin(n), n) && IsMarker(End(n), n)
    ensures Begin(n) != End(n) && (p == Begin(n) || p == End(n))
  {
    assert Begin(n)[7] != End(n)[7];
  }

  /** Position of the marker of the k-th section, relative to the body. */
  function MarkerAt(p: string, n: string, ss: seq<Section>, k: nat): nat
    requires k < |ss|
  {
    if k == 0 then Slot(p, n, ss[0]) else ShowLength(n, ss[0]) + MarkerAt(p, n, ss[1..], k - 1)
  }

  /** Position of the k-th printed path, relative to the body. */
  function PathAt(n: string, ss: seq<Section>, k: nat): nat
    requires k < |ss|
  {
    if k == 0 then 12 else ShowLength(n, ss[0]) + PathAt(n, ss[1..], k - 1)
  }

  ghost predicate IsSlot(p: string, n: string, ss: seq<Section>, i: int) {
    exists k: nat :: k < |ss| && MarkerAt(p, n, ss, k) == i
  }

  ghost predicate IsInPath(p: string, n: string, ss: seq<Section>, i: int) {
    exists k: nat :: k < |ss| && Occurs(p, ss[k].path, i - PathAt(n, ss, k))
  }

  lemma {:induction false} SlotOrLater(p: string, n: string, ss: seq<Section>, i: int)
    requires ss != []
    ensures IsSlot(p, n, ss, i) <==> i == Slot(p, n, ss[0]) || IsSlot(p, n, ss[1..], i - ShowLength(n, ss[0]))
  {
    hide Slot, ShowLength;
    var later, j := ss[1..], i - ShowLength(n, ss[0]);
    if i == Slot(p, n, ss[0]) {
      assert MarkerAt(p, n, ss, 0) == i;
    }
    if IsSlot(p, n, later, j) {
      var k: nat :| k < |later| && MarkerAt(p, n, later, k) == j;
      assert MarkerAt(p, n, ss, k + 1) == i;
    }
    if IsSlot(p, n, ss, i) {
      var k: nat :| k < |ss| && MarkerAt(p, n, ss, k) == i;
      assert k > 0 ==> MarkerAt(p, n, later, k - 1) == j;
    }
  }

  lemma {:induction false} PathOrLater(p: string, n: string, ss: seq<Section>, i: int)
    requires ss != []
    ensures IsInPath(p, n, ss, i) <==>
            Occurs(p, ss[0].path, i - 12) || IsInPath(p, n, ss[1..], i - ShowLength(n, ss[0]))
  {
    hide Occurs, ShowLength, PathAt;
    var later, j := ss[1..], i - ShowLength(n, ss[0]);
    PathShift(n, ss, 0);
    if Occurs(p, ss[0].path, i - 12) {
      assert PathAt(n, ss, 0) == 12;
    }
    if IsInPath(p, n, later, j) {
      var k: nat :| k < |later| && Occurs(p, later[k].path, j - PathAt(n, later, k));
      PathShift(n, ss, k + 1);
      assert Occurs(p, ss[k + 1].path, i - PathAt(n, ss, k + 1));
    }
    if IsInPath(p, n, ss, i) {
      var k: nat :| k < |ss| && Occurs(p, ss[k].path, i - PathAt(n, ss, k));
      PathShift(n, ss, k);
      if k > 0 {
        assert Occurs(p, later[k - 1].path, j - PathAt(n, later, k - 1));
      }
    }
  }

  lemma {:induction false} PathShift(n: string, ss: seq<Section>, k: nat)
    requires k < |ss|
    ensures PathAt(n, ss, k) == if k == 0 then 12 else ShowLength(n, ss[0]) + PathAt(n, ss[1..], k - 1)
  {
    hide ShowLength;
  }

  /** In a body, a marker occurs in its slots, inside printed paths, and nowhere else. */
  lemma {:induction false} OccursInBody(p: string, n: string, ss: seq<Section>, rest: string, i: int)
    requires IsMarker(p, n) && Plain(n) && (forall s <- ss :: '<' !in s.content)
    requires forall j :: !Occurs(p, rest, j)
    ensures Occurs(p, Body(n, ss, rest), i) <==> IsSlot(p, n, ss, i) || IsInPath(p, n, ss, i)
  {
    hide IsMarker, Occurs, Show, Slot, ShowLength;
    if ss != [] {
      OccursInSection(p, n, ss[0], Body(n, ss[1..], rest), i);
      OccursInBody(p, n, ss[1..], rest, i - ShowLength(n, ss[0]));
      SlotOrLater(p, n, ss, i);
      PathOrLater(p, n, ss, i);
    }
  }

  // ---------------------------------------------------------------- the fixed parts

  /** `lead` adds no marker: those of `lead + rest` are those of `rest`, further right. */
  ghost predicate Leads(n: string, lead: string, rest: string) {
    forall p, i | IsMarker(p, n) :: Occurs(p, lead + rest, i) <==> Occurs(p, rest, i - |lead|)
  }

  ghost predicate MarkerFree(n: string, s: string) {
    forall p, i | IsMarker(p, n) :: !Occurs(p, s, i)
  }

  lemma {:induction false} LeadPiece(n: string, a: string, c: char, more: string, rest: string)
    requires Plain(n) && Quiet(a) && (c == '\n' || c == ' ' || c == '"')
    requires Leads(n, more, rest)
    ensures Leads(n, a + [c] + more, rest)
  {
    forall p, i | IsMarker(p, n)
      ensures Occurs(p, a + [c] + more + rest, i) <==> Occurs(p, rest, i - |a + [c] + more|)
    {
      assert a + [c] + more + rest == a + [c] + (more + rest);
      SkipQuiet(p, n, a, c, more + rest, i);
      assert Occurs(p, more + rest, i - |a| - 1) <==> Occurs(p, rest, i - |a| - 1 - |more|);
    }
  }

  lemma {:induction false} PiecesAreQuiet(n: string, a: string, b: string)
    requires Plain(n) && '<' !in a && '<' !in b
    ensures Quiet(a + n + b) && Quiet(a + b + n + ".") && Quiet(a + b) && Quiet(a)
    ensures Quiet("<files-begin-" + n + ">") && Quiet("<files-end-" + n + ">")
  {
    assert ("<files-begin-" + n + ">")[1..] == "files-begin-" + n + ">";
    assert ("<files-end-" + n + ">")[1..] == "files-end-" + n + ">";
  }

  /** The opening's last pieces add no marker. */
  lemma {:induction false} OpeningEnds(n: string, nonceIs: string, rest: string)
    requires Plain(n) && Quiet(nonceIs)
    requires Quiet("<files-begin-" + n + ">") && Quiet("</system>") && Quiet("")
    ensures var files := "<files-begin-" + n + ">" + ['\n'] + "";
            Leads(n, nonceIs + ['\n'] + ("</system>" + ['\n'] + ("" + ['\n'] + files)), rest)
  {
    hide Quiet, Plain, Leads;
    var t6 := "<files-begin-" + n + ">" + ['\n'] + "";
    var t5 := "" + ['\n'] + t6;
    EmptyLeads(n, rest);
    LeadPiece(n, "<files-begin-" + n + ">", '\n', "", rest);
    LeadPiece(n, "", '\n', t6, rest);
    LeadPiece(n, "</system>", '\n', t5, rest);
    LeadPiece(n, nonceIs, '\n', "</system>" + ['\n'] + t5, rest);
  }

  lemma {:induction false} EmptyLeads(n: string, rest: string)
    ensures Leads(n, "", rest)
  {
    assert "" + rest == rest;
  }

  lemma {:induction false} OpeningLeads(n: string, rest: string)
    requires Plain(n)
    ensures Leads(n, Opening(n, ""), rest)
    ensures Opening(n, rest) == Opening(n, "") + rest
  {
    hide Say, Quiet, Plain, Leads;
    WordingHasNoTags();
    TagsAreQuiet();
    PiecesAreQuiet(n, Say(SYSTEM_RULES), Say(ONLY_TASK));
    PiecesAreQuiet(n, Say(NONCE_IS), Say(ONLY_TRUSTED));
    var t6 := "<files-begin-" + n + ">" + ['\n'] + "";
    var t5 := "" + ['\n'] + t6;
    var t4 := "</system>" + ['\n'] + t5;
    var t3 := Say(NONCE_IS) + n + Say(ONLY_TRUSTED) + ['\n'] + t4;
    var t2 := "<task>." + [' '] + t3;
    var t1 := Say(SYSTEM_RULES) + Say(ONLY_TASK) + [' '] + t2;
    OpeningEnds(n, Say(NONCE_IS) + n + Say(ONLY_TRUSTED), rest);
    LeadPiece(n, "<task>.", ' ', t3, rest);
    LeadPiece(n, Say(SYSTEM_RULES) + Say(ONLY_TASK), ' ', t2, rest);
    LeadPiece(n, "<system>", '\n', t1, rest);
    OpeningPieces(n, Say(SYSTEM_RULES), Say(ONLY_TASK), Say(NONCE_IS), Say(ONLY_TRUSTED), rest);
    OpeningPieces(n, Say(SYSTEM_RULES), Say(ONLY_TASK), Say(NONCE_IS), Say(ONLY_TRUSTED), "");
  }

  lemma {:induction false} EndingHasNoMarker(n: string, task: string)
    requires Plain(n) && Quiet(task)
    ensures MarkerFree(n, Ending(n, task))
  {
    hide Quiet, Plain, Occurs, IsMarker;
    TagsAreQuiet();
    PiecesAreQuiet(n, "", "");
    var t4 := "</task>" + ['\n'] + "";
    var t3 := task + ['\n'] + t4;
    var t2 := "<task>" + ['\n'] + t3;
    var t1 := "" + ['\n'] + t2;
    forall p, i | IsMarker(p, n)
      ensures !Occurs(p, Ending(n, task), i)
    {
      SkipQuiet(p, n, "<files-end-" + n + ">", '\n', t1, i);
      var i1 := i - |"<files-end-" + n + ">"| - 1;
      SkipQuiet(p, n, "", '\n', t2, i1);
      SkipQuiet(p, n, "<task>", '\n', t3, i1 - 1);
      SkipQuiet(p, n, task, '\n', t4, i1 - 8);
      SkipQuiet(p, n, "</task>", '\n', "", i1 - 9 - |task|);
      QuietHasNoMarker(p, n, "", i1 - 17 - |task|);
    }
  }

  /** The prompt names its nonce where the reader is to look for it, and lists the files in order between two
      tags that carry it too. */
  lemma {:induction false} PromptIs(nonce: seq<byte>, frames: seq<Frame>)
    ensures var n := Hex(nonce);
            var rules := Say(SYSTEM_RULES) + Say(ONLY_TASK) + " <task>. " + "The marker nonce is ";
            var end := ("<files-end-" + n + ">\n\n") + "<task>\n" + (Say(TASK_SCHEMA) + Say(TASK_ADVICE)) + n
                       + ".\n</task>\n";
            PromptText(nonce, frames)
            == "<system>\n" + rules + n + (Say(ONLY_TRUSTED) + "\n</system>\n\n") + ("<files-begin-" + n + ">\n")
               + Body(n, Sections(frames), end)
  {
    hide Say, Hex, Opening, Closing, Body, Escape, Base64.Encode;
    var n := Hex(nonce);
    NonceIsSaid();
    ClosingPieces(n, Say(TASK_SCHEMA), Say(TASK_ADVICE), "");
    assert "" + Closing(n) == Closing(n) && "" + ("<files-end-" + n + ">\n\n") == "<files-end-" + n + ">\n\n";
    OpeningPieces(n, Say(SYSTEM_RULES), Say(ONLY_TASK), Say(NONCE_IS), Say(ONLY_TRUSTED),
                  Body(n, Sections(frames), Closing(n)));
  }

  lemma {:induction false} NonceIsSaid()
    ensures Say(NONCE_IS) == "The marker nonce is "
  {
    assert NONCE_IS[1..] == [];
  }

  /** Different nonces of one length have different markers: none of one is a marker of the other. */
  lemma {:induction false} NoncesDiffer(a: seq<byte>, b: seq<byte>, p: string)
    requires |a| == |b| && a != b
    ensures IsMarker(p, Hex(a)) ==> !IsMarker(p, Hex(b))
    ensures Hex(a) != Hex(b)
  {
    hide Hex, Place, IsMarker;
    HexIsExact(a);
    HexIsExact(b);
    var k: nat :| k < |a| && a[k] != b[k];
    var (x, y) := (Hex(a), Hex(b));
    assert x[2 * k] != y[2 * k] || x[2 * k + 1] != y[2 * k + 1];
    MarkersNameTheirNonce(p, x, y);
  }

  lemma {:induction false} MarkersNameTheirNonce(p: string, x: string, y: string)
    requires |x| == |y|
    ensures IsMarker(p, x) && IsMarker(p, y) ==> x == y
  {
    assert Begin(x)[13..13 + |x|] == x && Begin(y)[13..13 + |y|] == y;
    assert End(x)[11..11 + |x|] == x && End(y)[11..11 + |y|] == y;
    assert Begin(x)[7] == 'b' && End(x)[7] == 'e' && Begin(y)[7] == 'b' && End(y)[7] == 'e';
  }

  // ---------------------------------------------------------------- the escape of paths

  /** The escape neither creates nor destroys a marker. `a` is text already escaped. */
  lemma {:induction false} EscapeKeepsMarkers(p: string, a: string, path: string)
    requires '"' !in p && '&' !in p && ';' !in p && |p| > 4
    ensures Contains(a + Escape(path), p) <==> Contains(a + path, p)
    decreases |path|
  {
    if path == "" {
      assert Escape(path) == path;
    } else {
      var c, later := path[0], path[1..];
      hide Escape, Contains;
      EscapeStep(a, path);
      if c == '"' {
        EscapeKeepsMarkers(p, "", later);
        assert "" + later == later && "" + Escape(later) == Escape(later);
        ContainsAround(p, a, '"', later);
        QuoteIsShort(p, Escape(later));
        ContainsAround(p, a, '&', "quot" + [';'] + Escape(later));
      } else {
        EscapeKeepsMarkers(p, a + [c], later);
      }
    }
  }

  lemma {:induction false} EscapeStep(a: string, path: string)
    requires path != ""
    ensures path[0] == '"' ==>
              && a + path == a + ['"'] + path[1..]
              && a + Escape(path) == a + ['&'] + ("quot" + [';'] + Escape(path[1..]))
    ensures path[0] != '"' ==>
              && a + [path[0]] + path[1..] == a + path
              && a + [path[0]] + Escape(path[1..]) == a + Escape(path)
  {
    hide Escape;
    EscapeHead(path);
    HeadAndRest(path);
    Regroup(a, [path[0]], path[1..]);
    Regroup(a, [path[0]], Escape(path[1..]));
    Regroup(a, ['&'], "quot" + [';'] + Escape(path[1..]));
  }

  lemma {:induction false} Regroup(a: string, b: string, c: string)
    ensures a + (b + c) == a + b + c
  {
  }

  lemma {:induction false} HeadAndRest(s: string)
    requires s != ""
    ensures [s[0]] + s[1..] == s
  {
  }

  lemma {:induction false} EscapeHead(path: string)
    requires path != ""
    ensures Escape(path) == if path[0] == '"' then ['&'] + ("quot" + [';'] + Escape(path[1..]))
                            else [path[0]] + Escape(path[1..])
  {
    assert "&quot;" == ['&'] + ("quot" + [';']);
  }

  /** The rest of an escaped quote has no room for a marker. */
  lemma {:induction false} QuoteIsShort(p: string, later: string)
    requires ';' !in p && |p| > 4
    ensures Contains("quot" + [';'] + later, p) <==> Contains(later, p)
  {
    ContainsAround(p, "quot", ';', later);
  }

  lemma {:induction false} ContainsAround(p: string, a: string, c: char, b: string)
    requires c !in p && p != ""
    ensures Contains(a + [c] + b, p) <==> Contains(a, p) || Contains(b, p)
  {
    var s := a + [c] + b;
    if Contains(s, p) {
      var i :| Occurs(p, s, i);
      OccursAround(p, a, c, b, i);
    }
    if Contains(a, p) {
      var i :| Occurs(p, a, i);
      OccursAround(p, a, c, b, i);
    }
    if Contains(b, p) {
      var i :| Occurs(p, b, i);
      OccursAround(p, a, c, b, i + |a| + 1);
    }
  }

  // ---------------------------------------------------------------- unambiguous markers

  /** A prompt of either mode, by its parts. */
  ghost predicate IsPrompt(n: string, s: string, lead: string, ss: seq<Section>, end: string) {
    && s == lead + Body(n, ss, end)
    && Leads(n, lead, Body(n, ss, end)) && MarkerFree(n, end)
    && Plain(n) && forall x <- ss :: '<' !in x.content
  }

  /** Every occurrence of the marker is the slot of some section. */
  ghost predicate OnlyInSlots(p: string, n: string, s: string, lead: string, ss: seq<Section>) {
    forall i | Occurs(p, s, i) :: IsSlot(p, n, ss, i - |lead|)
  }

  /** The markers of a prompt are exactly those of its sections, if and only if no printed path contains
      one. */
  lemma {:induction false} MarkersAreSlots(n: string, s: string, lead: string, ss: seq<Section>, end: string, p: string)
    requires IsPrompt(n, s, lead, ss, end) && IsMarker(p, n)
    ensures forall k: nat | k < |ss| :: Occurs(p, s, |lead| + MarkerAt(p, n, ss, k))
    ensures OnlyInSlots(p, n, s, lead, ss) <==> (forall x <- ss :: !Contains(x.path, p))
  {
    hide Body, MarkerAt, PathAt, Occurs, Leads;
    forall i
      ensures Occurs(p, s, i) <==> IsSlot(p, n, ss, i - |lead|) || IsInPath(p, n, ss, i - |lead|)
    {
      LeadsAt(n, lead, Body(n, ss, end), p, i);
      OccursInBody(p, n, ss, end, i - |lead|);
    }
    forall k: nat | k < |ss|
      ensures Occurs(p, s, |lead| + MarkerAt(p, n, ss, k))
    {
      assert IsSlot(p, n, ss, |lead| + MarkerAt(p, n, ss, k) - |lead|);
    }
    if x :| x in ss && Contains(x.path, p) {
      var k :| 0 <= k < |ss| && ss[k] == x;
      var j :| Occurs(p, x.path, j);
      var i := PathAt(n, ss, k) + j;
      assert Occurs(p, ss[k].path, i - PathAt(n, ss, k));
      assert Occurs(p, s, i + |lead|);
      PathsAreNotSlots(p, n, ss, k, j);
    }
  }

  lemma {:induction false} LeadsAt(n: string, lead: string, rest: string, p: string, i: int)
    requires Leads(n, lead, rest) && IsMarker(p, n)
    ensures Occurs(p, lead + rest, i) <==> Occurs(p, rest, i - |lead|)
  {
  }

  /** A marker inside a printed path is not where a section's marker is. */
  lemma {:induction false} PathsAreNotSlots(p: string, n: string, ss: seq<Section>, k: nat, j: int)
    requires k < |ss| && Occurs(p, ss[k].path, j) && IsMarker(p, n)
    ensures !IsSlot(p, n, ss, PathAt(n, ss, k) + j)
  {
    hide Body;
    var i := PathAt(n, ss, k) + j;
    assert |p| > 0 by { MarkerIsLong(p, n); }
    SlotOrLater(p, n, ss, i);
    if k > 0 {
      PathsAreNotSlots(p, n, ss[1..], k - 1, j);
      PathsAreLater(n, ss[1..], k - 1);
      assert Slot(p, n, ss[0]) < ShowLength(n, ss[0]);
    }
  }

  lemma {:induction false} MarkerIsLong(p: string, n: string)
    requires IsMarker(p, n)
    ensures |p| >= 12
  {
  }

  lemma {:induction k} PathsAreLater(n: string, ss: seq<Section>, k: nat)
    requires k < |ss|
    ensures PathAt(n, ss, k) >= 12
  {
  }

  lemma {:induction false} SlotsInOrder(n: string, ss: seq<Section>, k: nat)
    requires k < |ss|
    ensures MarkerAt(End(n), n, ss, k)
         == MarkerAt(Begin(n), n, ss, k) + |Begin(n)| + |ss[k].content| + 2
    ensures k + 1 < |ss| ==>
              MarkerAt(End(n), n, ss, k) + |End(n)| < MarkerAt(Begin(n), n, ss, k + 1)
  {
    BeginIsNotEnd(n);
    if k > 0 {
      SlotsInOrder(n, ss[1..], k - 1);
    } else if |ss| > 1 {
      assert MarkerAt(Begin(n), n, ss, 1) == ShowLength(n, ss[0]) + Slot(Begin(n), n, ss[1]);
    }
  }

  lemma {:induction false} BeginIsNotEnd(n: string)
    ensures Begin(n) != End(n) && IsMarker(Begin(n), n) && IsMarker(End(n), n)
  {
    assert Begin(n)[7] != End(n)[7];
  }

  /** Slots grow with the section number, for either marker. */
  lemma {:induction false} SlotsGrow(p: string, n: string, ss: seq<Section>, k: nat, m: nat)
    requires k < m < |ss| && IsMarker(p, n)
    ensures MarkerAt(p, n, ss, k) + |p| < MarkerAt(p, n, ss, m)
    decreases m - k
  {
    BeginIsNotEnd(n);
    SlotsInOrder(n, ss, m - 1);
    SlotsInOrder(n, ss, m);
    if k < m - 1 {
      SlotsGrow(p, n, ss, k, m - 1);
    }
  }

  // ---------------------------------------------------------------- the theorems for Mode A

  function Lead(nonce: seq<byte>): string {
    Opening(Hex(nonce), "")
  }

  lemma {:induction false} AssembledIsPrompt(nonce: seq<byte>, frames: seq<Frame>)
    ensures var n := Hex(nonce);
            IsPrompt(n, PromptText(nonce, frames), Lead(nonce), Sections(frames), Closing(n))
  {
    hide Say, Opening, Body, Escape, Base64.Encode, Ending, Leads, MarkerFree;
    var n := Hex(nonce);
    HexIsPlain(nonce);
    OpeningLeads(n, Body(n, Sections(frames), Closing(n)));
    WordingHasNoTags();
    PiecesAreQuiet(n, Say(TASK_SCHEMA), Say(TASK_ADVICE));
    EndingHasNoMarker(n, Say(TASK_SCHEMA) + Say(TASK_ADVICE) + n + ".");
    forall x <- Sections(frames)
      ensures '<' !in x.content
    {
      var k :| 0 <= k < |frames| && Sections(frames)[k] == x;
      Base64.EncodeIsPlain(frames[k].bytes);
    }
  }

  lemma {:induction false} EscapedPaths(frames: seq<Frame>, n: string, p: string)
    requires IsMarker(p, n) && Plain(n)
    ensures (forall x <- Sections(frames) :: !Contains(x.path, p))
       <==> (forall f <- frames :: !Contains(f.relativePath, p))
  {
    hide Contains, Escape, Base64.Encode, IsMarker;
    MarkerLacksSeparators(p, n);
    forall k | 0 <= k < |frames|
      ensures Contains(Sections(frames)[k].path, p) <==> Contains(frames[k].relativePath, p)
    {
      var path := frames[k].relativePath;
      EscapeKeepsMarkers(p, "", path);
      assert "" + path == path && "" + Escape(path) == Escape(path);
    }
    forall f <- frames | forall x <- Sections(frames) :: !Contains(x.path, p)
      ensures !Contains(f.relativePath, p)
    {
      var k :| 0 <= k < |frames| && frames[k] == f;
      assert Sections(frames)[k] in Sections(frames);
    }
    forall x <- Sections(frames) | forall f <- frames :: !Contains(f.relativePath, p)
      ensures !Contains(x.path, p)
    {
      var k :| 0 <= k < |frames| && Sections(frames)[k] == x;
      assert frames[k] in frames;
    }
  }

  /** Each marker occurs once per file, where the assembler put it, and nowhere else, if and only if no
      path contains it. */
  lemma {:induction false} MarkersUnambiguous(nonce: seq<byte>, frames: seq<Frame>, p: string)
    requires IsMarker(p, Hex(nonce))
    ensures var s, n, ss := PromptText(nonce, frames), Hex(nonce), Sections(frames);
            && (forall k: nat | k < |ss| :: Occurs(p, s, |Lead(nonce)| + MarkerAt(p, n, ss, k)))
            && (OnlyInSlots(p, n, s, Lead(nonce), ss) <==> forall f <- frames :: !Contains(f.relativePath, p))
  {
    hide PromptText, MarkerAt, Occurs, Contains, IsMarker, Sections, Lead, Hex, IsPrompt, OnlyInSlots, Plain, Closing;
    var s, n, ss, lead := PromptText(nonce, frames), Hex(nonce), Sections(frames), Lead(nonce);
    HexIsPlain(nonce);
    AssembledIsPrompt(nonce, frames);
    MarkersAreSlots(n, s, lead, ss, Closing(n), p);
    EscapedPaths(frames, n, p);
  }

  /** A path that does not contain the nonce contains no marker. */
  lemma {:induction false} NoNonceNoMarker(path: string, n: string, p: string)
    requires IsMarker(p, n) && !Contains(path, n)
    ensures !Contains(path, p)
  {
    if Contains(path, p) {
      var i :| Occurs(p, path, i);
      var d := |p| - |n| - 1;
      OccursInside(n, p, path, i, d);
    }
  }
}
