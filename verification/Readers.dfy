/** The two ways a prompt and its list of inputs are built: by the one reader of Mode A, and by the
    inference process of Mode B from messages alone. */
module Readers {
  import opened Bytes
  import opened Text
  import opened Wording
  import opened Wire
  import opened Prompt
  import opened Ipc
  import opened Recovery
  import Base64

  /** One entry of the report's inputs. Mode A digests the bytes, Mode B the base64 text. */
  datatype InputMeta =
    | Direct(path: string, digest: string, size: nat)
    | Structured(path: string, digest: string, size: nat)

  function DirectInputs(digest: seq<byte> -> string, frames: seq<Frame>): (r: seq<InputMeta>)
    ensures |r| == |frames|
    ensures forall k | 0 <= k < |r| ::
              r[k] == Direct(frames[k].relativePath, digest(frames[k].bytes), |frames[k].bytes|)
  {
    if frames == [] then []
    else [Direct(frames[0].relativePath, digest(frames[0].bytes), |frames[0].bytes|)]
         + DirectInputs(digest, frames[1..])
  }

  /** The inference process's working state while it walks the messages. */
  datatype Assembly = Assembly(prompt: string, inputs: seq<InputMeta>, nonceHex: string, inFiles: bool)

  function Absorb(digest: string -> string, a: Assembly, m: Message): Assembly {
    match m
    case Header(n, system, _) =>
      Assembly(a.prompt + ("<system>\n" + system + "\n</system>\n\n") + ("<files-begin-" + n + ">\n"),
               a.inputs, n, true)
    case File(path, content, count) =>
      a.(prompt := a.prompt + ("<file path=\"" + path + "\">\n") + ("<bytes-begin-" + a.nonceHex + ">\n")
                   + content + ("\n<bytes-end-" + a.nonceHex + ">\n</file>\n"),
         inputs := a.inputs + [Structured(path, digest(content), count)])
    case EndFiles =>
      a.(prompt := if a.inFiles then a.prompt + ("<files-end-" + a.nonceHex + ">\n\n") else a.prompt,
         inFiles := false)
  }

  function AbsorbAll(digest: string -> string, a: Assembly, ms: seq<Message>): Assembly
    decreases |ms|
  {
    if ms == [] then a else AbsorbAll(digest, Absorb(digest, a, ms[0]), ms[1..])
  }

  const NOTHING := Assembly("", [], "", false)

  function WithTask(a: Assembly): string {
    a.prompt + ("<task>\n" + Say(TASK_MODE_B)) + a.nonceHex + ".\n</task>\n"
  }

  /** The message loop, and the instructions appended after it. */
  method BuildPrompt(digest: string -> string, messages: seq<Message>)
    returns (prompt: string, inputs: seq<InputMeta>, nonceHex: string)
    ensures var a := AbsorbAll(digest, NOTHING, messages);
            prompt == WithTask(a) && inputs == a.inputs && nonceHex == a.nonceHex
  {
    hide Say;
    prompt, inputs, nonceHex := "", [], "";
    var inFiles := false;
    var i := 0;
    while i < |messages|
      invariant i <= |messages|
      invariant AbsorbAll(digest, NOTHING, messages)
             == AbsorbAll(digest, Assembly(prompt, inputs, nonceHex, inFiles), messages[i..])
    {
      ghost var before := Assembly(prompt, inputs, nonceHex, inFiles);
      assert messages[i..][0] == messages[i] && messages[i..][1..] == messages[i + 1..];
      match messages[i] {
        case Header(n, system, task) =>
          nonceHex := n;
          prompt := prompt + ("<system>\n" + system + "\n</system>\n\n");
          prompt := prompt + ("<files-begin-" + n + ">\n");
          inFiles := true;
        case File(path, content, count) =>
          prompt := prompt + ("<file path=\"" + path + "\">\n");
          prompt := prompt + ("<bytes-begin-" + nonceHex + ">\n");
          prompt := prompt + content;
          prompt := prompt + ("\n<bytes-end-" + nonceHex + ">\n</file>\n");
          inputs := inputs + [Structured(path, digest(content), count)];
        case EndFiles =>
          if inFiles {
            prompt := prompt + ("<files-end-" + nonceHex + ">\n\n");
          }
          inFiles := false;
      }
      assert Assembly(prompt, inputs, nonceHex, inFiles) == Absorb(digest, before, messages[i]);
      i := i + 1;
    }
    prompt := prompt + ("<task>\n" + Say(TASK_MODE_B));
    prompt := prompt + nonceHex;
    prompt := prompt + ".\n</task>\n";
  }

  // ---------------------------------------------------------------- Mode B's prompt in closed form

  function OpeningB(n: string): string {
    "<system>" + ['\n'] + (Say(SYSTEM_RULES) + ['\n'] + ("</system>" + ['\n'] + ("" + ['\n']
    + ("<files-begin-" + n + ">" + ['\n'] + ""))))
  }

  function ClosingB(n: string): string {
    Ending(n, Say(TASK_MODE_B) + n + ".")
  }

  /** The sections of Mode B's prompt: its paths are printed without the escape. */
  function SectionsB(frames: seq<Frame>): (ss: seq<Section>)
    ensures |ss| == |frames|
    ensures forall k | 0 <= k < |ss| ::
              ss[k] == Section(frames[k].relativePath, Base64.Encode(frames[k].bytes))
  {
    if frames == [] then []
    else [Section(frames[0].relativePath, Base64.Encode(frames[0].bytes))] + SectionsB(frames[1..])
  }

  function StructuredInputs(digest: string -> string, frames: seq<Frame>): (r: seq<InputMeta>)
    ensures |r| == |frames|
    ensures forall k | 0 <= k < |r| :: r[k].path == frames[k].relativePath && r[k].size == |frames[k].bytes|
  {
    if frames == [] then []
    else [Structured(frames[0].relativePath, digest(Base64.Encode(frames[0].bytes)), |frames[0].bytes|)]
         + StructuredInputs(digest, frames[1..])
  }

  lemma {:induction false} AbsorbedInputs(digest: string -> string, a: Assembly, frames: seq<Frame>)
    ensures var b := AbsorbAll(digest, a, Files(frames) + [EndFiles]);
            b.nonceHex == a.nonceHex && b.inputs == a.inputs + StructuredInputs(digest, frames)
    decreases |frames|
  {
    hide Base64.Encode, Absorb, StructuredInputs, AbsorbAll;
    var ms := Files(frames) + [EndFiles];
    AbsorbUnfold(digest, a, ms);
    if frames == [] {
      assert ms == [EndFiles];
      AbsorbUnfold(digest, Absorb(digest, a, EndFiles), []);
      AbsorbEnd(digest, a, "");
      InputsUnfold(digest, a.inputs, frames);
    } else {
      var s := Section(frames[0].relativePath, Base64.Encode(frames[0].bytes));
      assert ms[0] == File(s.path, s.content, |frames[0].bytes|);
      assert ms[1..] == Files(frames[1..]) + [EndFiles];
      AbsorbFile(digest, a, s, |frames[0].bytes|, "");
      AbsorbedInputs(digest, Absorb(digest, a, ms[0]), frames[1..]);
      InputsUnfold(digest, a.inputs, frames);
    }
  }

  // ---------------------------------------------------------------- any list of messages

  /** The nonce of the last header. */
  function LastNonce(ms: seq<Message>): string {
    if ms == [] then ""
    else if ms[|ms| - 1].Header? then ms[|ms| - 1].nonceHex else LastNonce(ms[..|ms| - 1])
  }

  /** A header has come, and no end of files since. */
  function FilesOpen(ms: seq<Message>): bool {
    ms != [] && (ms[|ms| - 1].Header? || (ms[|ms| - 1].File? && FilesOpen(ms[..|ms| - 1])))
  }

  /** What a message adds to the prompt after those before it. */
  function Adds(before: seq<Message>, m: Message): string {
    match m
    case Header(n, system, _) => "<system>\n" + system + "\n</system>\n\n" + "<files-begin-" + n + ">\n"
    case File(path, content, _) =>
      "<file path=\"" + path + "\">\n" + "<bytes-begin-" + LastNonce(before) + ">\n" + content
      + "\n<bytes-end-" + LastNonce(before) + ">\n</file>\n"
    case EndFiles => if FilesOpen(before) then "<files-end-" + LastNonce(before) + ">\n\n" else ""
  }

  function Printed(ms: seq<Message>): string {
    if ms == [] then "" else Printed(ms[..|ms| - 1]) + Adds(ms[..|ms| - 1], ms[|ms| - 1])
  }

  function Listed(digest: string -> string, ms: seq<Message>): seq<InputMeta> {
    if ms == [] then []
    else
      var m := ms[|ms| - 1];
      Listed(digest, ms[..|ms| - 1])
      + if m.File? then [Structured(m.relativePath, digest(m.contentBase64), m.byteCount)] else []
  }

  /** The prompt and the inputs made of any list of messages, well formed or not: each message adds its piece,
      with the nonce of the last header before it. */
  lemma {:induction false} AbsorbedIs(digest: string -> string, ms: seq<Message>)
    ensures AbsorbAll(digest, NOTHING, ms)
         == Assembly(Printed(ms), Listed(digest, ms), LastNonce(ms), FilesOpen(ms))
    decreases |ms|
  {
    hide Adds, Absorb;
    if ms != [] {
      var front, m := ms[..|ms| - 1], ms[|ms| - 1];
      AbsorbedIs(digest, front);
      assert ms == front + [m];
      AbsorbLast(digest, NOTHING, front, m);
      AbsorbAdds(digest, Assembly(Printed(front), Listed(digest, front), LastNonce(front), FilesOpen(front)), front, m);
    }
  }

  lemma {:induction false} AbsorbLast(digest: string -> string, a: Assembly, ms: seq<Message>, m: Message)
    ensures AbsorbAll(digest, a, ms + [m]) == Absorb(digest, AbsorbAll(digest, a, ms), m)
    decreases |ms|
  {
    hide Absorb;
    if ms == [] {
      assert [] + [m] == [m] && [m][1..] == [];
    } else {
      assert (ms + [m])[1..] == ms[1..] + [m];
      AbsorbLast(digest, Absorb(digest, a, ms[0]), ms[1..], m);
    }
  }

  lemma {:induction false} AbsorbAdds(digest: string -> string, a: Assembly, before: seq<Message>, m: Message)
    requires a.nonceHex == LastNonce(before) && a.inFiles == FilesOpen(before)
    ensures var b := Absorb(digest, a, m);
            && b.prompt == a.prompt + Adds(before, m)
            && b.inputs
               == a.inputs
                  + (if m.File? then [Structured(m.relativePath, digest(m.contentBase64), m.byteCount)] else [])
            && b.nonceHex == (if m.Header? then m.nonceHex else a.nonceHex)
            && b.inFiles == (m.Header? || (m.File? && a.inFiles))
  {
    hide LastNonce, FilesOpen;
    if m.File? {
      FileAdds(a.prompt, m.relativePath, m.contentBase64, a.nonceHex);
    }
  }

  lemma {:induction false} FileAdds(before: string, path: string, content: string, n: string)
    ensures before + ("<file path=\"" + path + "\">\n") + ("<bytes-begin-" + n + ">\n") + content
            + ("\n<bytes-end-" + n + ">\n</file>\n")
         == before + ("<file path=\"" + path + "\">\n" + "<bytes-begin-" + n + ">\n" + content
                      + "\n<bytes-end-" + n + ">\n</file>\n")
  {
  }

  lemma {:induction false} AbsorbUnfold(digest: string -> string, a: Assembly, ms: seq<Message>)
    ensures AbsorbAll(digest, a, ms) == if ms == [] then a else AbsorbAll(digest, Absorb(digest, a, ms[0]), ms[1..])
  {
  }

  lemma {:induction false} InputsUnfold(digest: string -> string, before: seq<InputMeta>, frames: seq<Frame>)
    ensures frames == [] ==> before + StructuredInputs(digest, frames) == before
    ensures frames != [] ==>
              before + StructuredInputs(digest, frames)
              == before + [Structured(frames[0].relativePath, digest(Base64.Encode(frames[0].bytes)), |frames[0].bytes|)]
                 + StructuredInputs(digest, frames[1..])
  {
    hide Base64.Encode;
  }

  lemma {:induction false} AbsorbedPrompt(digest: string -> string, a: Assembly, frames: seq<Frame>, rest: string)
    requires a.inFiles
    ensures AbsorbAll(digest, a, Files(frames) + [EndFiles]).prompt + rest
         == a.prompt + Body(a.nonceHex, SectionsB(frames), "<files-end-" + a.nonceHex + ">\n\n" + rest)
    decreases |frames|
  {
    hide Base64.Encode, Show, Absorb;
    var ms := Files(frames) + [EndFiles];
    var end := "<files-end-" + a.nonceHex + ">\n\n" + rest;
    if frames == [] {
      assert ms == [EndFiles];
      AbsorbEnd(digest, a, rest);
    } else {
      var s := Section(frames[0].relativePath, Base64.Encode(frames[0].bytes));
      assert ms[1..] == Files(frames[1..]) + [EndFiles];
      AbsorbFile(digest, a, s, |frames[0].bytes|, Body(a.nonceHex, SectionsB(frames[1..]), end));
      AbsorbedPrompt(digest, Absorb(digest, a, ms[0]), frames[1..], rest);
    }
  }

  lemma {:induction false} AbsorbEnd(digest: string -> string, a: Assembly, rest: string)
    ensures Absorb(digest, a, EndFiles).inputs == a.inputs
    ensures Absorb(digest, a, EndFiles).nonceHex == a.nonceHex
    ensures a.inFiles ==>
              Absorb(digest, a, EndFiles).prompt + rest == a.prompt + ("<files-end-" + a.nonceHex + ">\n\n" + rest)
  {
  }

  lemma {:induction false} AbsorbFile(digest: string -> string, a: Assembly, s: Section, count: nat, later: string)
    ensures var b := Absorb(digest, a, File(s.path, s.content, count));
            && b.nonceHex == a.nonceHex && b.inFiles == a.inFiles
            && b.inputs == a.inputs + [Structured(s.path, digest(s.content), count)]
            && b.prompt + later == a.prompt + Show(a.nonceHex, s, later)
  {
    hide Show;
    FileText(a.prompt, a.nonceHex, s, later);
  }

  lemma {:induction false} FileText(before: string, n: string, s: Section, rest: string)
    ensures before + Show(n, s, rest)
         == before + ("<file path=\"" + s.path + "\">\n") + ("<bytes-begin-" + n + ">\n") + s.content
            + ("\n<bytes-end-" + n + ">\n</file>\n") + rest
  {
    ShowPieces(n, s, before, rest);
    assert "\n<bytes-end-" + n + ">\n" + "</file>\n" == "\n<bytes-end-" + n + ">\n</file>\n";
  }

  lemma {:induction false} EndText(before: string, n: string)
    ensures "<files-end-" + n + ">\n\n" + ("<task>\n" + Say(TASK_MODE_B) + n + ".\n</task>\n") == ClosingB(n)
  {
    hide Say;
  }

  lemma {:induction false} StartText(n: string)
    ensures "" + ("<system>\n" + Say(SYSTEM_RULES) + "\n</system>\n\n") + ("<files-begin-" + n + ">\n") == OpeningB(n)
  {
    hide Say;
  }

  /** What the inference process makes of the messages for some frames. */
  lemma {:induction false} PromptOfMessages(digest: string -> string, n: string, frames: seq<Frame>)
    ensures var a := AbsorbAll(digest, NOTHING, Messages(n, frames));
            && WithTask(a) == OpeningB(n) + Body(n, SectionsB(frames), ClosingB(n))
            && a.inputs == StructuredInputs(digest, frames) && a.nonceHex == n
  {
    hide Say, Files, Body, OpeningB, ClosingB;
    var ms := Messages(n, frames);
    assert ms[1..] == Files(frames) + [EndFiles];
    var first := Absorb(digest, NOTHING, ms[0]);
    var task := "<task>\n" + Say(TASK_MODE_B) + n + ".\n</task>\n";
    StartText(n);
    assert first == Assembly(OpeningB(n), [], n, true);
    AbsorbedInputs(digest, first, frames);
    AbsorbedPrompt(digest, first, frames, task);
    EndText("", n);
    var a := AbsorbAll(digest, NOTHING, ms);
    assert WithTask(a) == a.prompt + task;
  }

  lemma {:induction false} OpeningBLeads(n: string, rest: string)
    requires Plain(n)
    ensures Leads(n, OpeningB(n), rest)
  {
    hide Say;
    WordingHasNoTags();
    TagsAreQuiet();
    PiecesAreQuiet(n, Say(SYSTEM_RULES), "");
    hide Quiet, Plain;
    var t4 := "<files-begin-" + n + ">" + ['\n'] + "";
    var t3 := "" + ['\n'] + t4;
    var t2 := "</system>" + ['\n'] + t3;
    var t1 := Say(SYSTEM_RULES) + ['\n'] + t2;
    assert Leads(n, "", rest) by {
      assert "" + rest == rest;
    }
    LeadPiece(n, "<files-begin-" + n + ">", '\n', "", rest);
    LeadPiece(n, "", '\n', t4, rest);
    LeadPiece(n, "</system>", '\n', t3, rest);
    LeadPiece(n, Say(SYSTEM_RULES), '\n', t2, rest);
    LeadPiece(n, "<system>", '\n', t1, rest);
  }

  function ModeBText(nonce: seq<byte>, frames: seq<Frame>): string {
    var n := Hex(nonce);
    OpeningB(n) + Body(n, SectionsB(frames), ClosingB(n))
  }

  lemma {:induction false} ModeBIsPrompt(nonce: seq<byte>, frames: seq<Frame>)
    ensures var n := Hex(nonce);
            IsPrompt(n, ModeBText(nonce, frames), OpeningB(n), SectionsB(frames), ClosingB(n))
  {
    hide Say, OpeningB, Body, Base64.Encode, Ending, Leads, MarkerFree;
    var n := Hex(nonce);
    HexIsPlain(nonce);
    OpeningBLeads(n, Body(n, SectionsB(frames), ClosingB(n)));
    WordingHasNoTags();
    PiecesAreQuiet(n, Say(TASK_MODE_B), ".");
    EndingHasNoMarker(n, Say(TASK_MODE_B) + n + ".");
    forall x <- SectionsB(frames)
      ensures '<' !in x.content
    {
      var k :| 0 <= k < |frames| && SectionsB(frames)[k] == x;
      Base64.EncodeIsPlain(frames[k].bytes);
    }
  }

  /** Mode B's prompt in full: the rules, the files between two tags that carry the nonce, and the task, which
      names it. */
  lemma {:induction false} ModeBIs(nonce: seq<byte>, frames: seq<Frame>)
    ensures var n := Hex(nonce);
            var task := "Produce a JSON object matching" + " the report schema. The marker" + " nonce is ";
            ModeBText(nonce, frames)
            == "<system>\n" + Say(SYSTEM_RULES) + "\n</system>\n\n" + ("<files-begin-" + n + ">\n")
               + Body(n, SectionsB(frames), ("<files-end-" + n + ">\n\n") + "<task>\n" + task + n + ".\n</task>\n")
  {
    hide Hex, Body, Base64.Encode;
    TaskIsSaid();
    hide Say, OpeningB, Ending;
    var n := Hex(nonce);
    OpeningBIs(n);
    ClosingBIs(n, Say(TASK_MODE_B));
  }

  lemma {:induction false} OpeningBIs(n: string)
    ensures OpeningB(n) == "<system>\n" + Say(SYSTEM_RULES) + "\n</system>\n\n" + ("<files-begin-" + n + ">\n")
  {
    hide Say;
  }

  lemma {:induction false} TaskIsSaid()
    ensures Say(TASK_MODE_B) == "Produce a JSON object matching" + " the report schema. The marker" + " nonce is "
  {
    assert TASK_MODE_B[1..][1..][1..] == [];
  }

  lemma {:induction false} ClosingBIs(n: string, task: string)
    ensures Ending(n, task + n + ".") == ("<files-end-" + n + ">\n\n") + "<task>\n" + task + n + ".\n</task>\n"
  {
  }

  /** In Mode B's prompt, likewise, each marker stands once per file, in its place, and nowhere else, if and
      only if no path contains it. */
  lemma {:induction false} ModeBUnambiguous(nonce: seq<byte>, frames: seq<Frame>, p: string)
    requires IsMarker(p, Hex(nonce))
    ensures var s, n, ss := ModeBText(nonce, frames), Hex(nonce), SectionsB(frames);
            && (forall k: nat | k < |ss| :: Occurs(p, s, |OpeningB(n)| + MarkerAt(p, n, ss, k)))
            && (OnlyInSlots(p, n, s, OpeningB(n), ss) <==> forall f <- frames :: !Contains(f.relativePath, p))
  {
    hide Contains, Hex, IsPrompt, IsMarker, OpeningB, ClosingB, ModeBText, MarkerAt, Occurs, OnlyInSlots,
      Base64.Encode;
    var n, ss := Hex(nonce), SectionsB(frames);
    ModeBIsPrompt(nonce, frames);
    MarkersAreSlots(n, ModeBText(nonce, frames), OpeningB(n), ss, ClosingB(n), p);
    forall k | 0 <= k < |frames|
      ensures ss[k].path == frames[k].relativePath && ss[k] in ss && frames[k] in frames
    {
    }
  }

  /** The search recovers the bytes from Mode B's prompt under the same condition: its paths are printed
      without the escape, which would not have mattered. */
  lemma {:induction false} ModeBRecovers(nonce: seq<byte>, frames: seq<Frame>)
    ensures Recover(Hex(nonce), ModeBText(nonce, frames), 0)
         == AllBytes(frames)
       <==> forall f <- frames :: !Contains(f.relativePath, Begin(Hex(nonce)))
  {
    hide Contains, Hex, IsPrompt, Recover, Base64.Encode, Base64.Decode, Begin, End, OpeningB, ClosingB, Body;
    var n, ss := Hex(nonce), SectionsB(frames);
    ModeBIsPrompt(nonce, frames);
    AllDecode(frames, ss);
    RecoverPrompt(n, ModeBText(nonce, frames), OpeningB(n), ss, ClosingB(n));
    forall k | 0 <= k < |frames|
      ensures ss[k].path == frames[k].relativePath && ss[k] in ss && frames[k] in frames
    {
    }
  }

  /** Modes A and B agree, through the second hop. Of the messages that arrive in the inference process it
      lists inputs with the paths and sizes that Mode A lists, in the same order; the k-th section of its
      prompt decodes to the bytes that Mode A digests; and searching its prompt yields what searching Mode A's
      does, all those bytes, if and only if no path contains a begin marker. */
  lemma {:induction false} ModesAgree(j: Json,
                                      digestA: seq<byte> -> string, digestB: string -> string, nonce: seq<byte>,
                   frames: seq<Frame>, x: seq<byte>)
    requires j.Lawful()
    ensures var n, arrived := Hex(nonce), ReadLines(j, Lines(j, Messages(Hex(nonce), frames)) + x, true);
            var inputsA := DirectInputs(digestA, frames);
            && arrived.Done?
            && var b := AbsorbAll(digestB, NOTHING, arrived.messages);
               && |b.inputs| == |inputsA|
               && (forall k | 0 <= k < |inputsA| ::
                     && b.inputs[k].path == inputsA[k].path && b.inputs[k].size == inputsA[k].size
                     && var bytes := Base64.Decode(SectionsB(frames)[k].content);
                        bytes == Some(frames[k].bytes) && digestA(bytes.value) == inputsA[k].digest)
               && WithTask(b) == OpeningB(n) + Body(n, SectionsB(frames), ClosingB(n))
               && (Recover(n, WithTask(b), 0) == AllBytes(frames)
                   <==> forall f <- frames :: !Contains(f.relativePath, Begin(n)))
  {
    hide Contains, Hex, Recover, Base64.Encode, Base64.Decode, Begin, End, OpeningB, ClosingB, Body, Messages, AbsorbAll,
      WithTask, ReadLines, Lines;
    var n := Hex(nonce);
    HopRoundTrip(j, n, frames, x, true);
    PromptOfMessages(digestB, n, frames);
    ModeBRecovers(nonce, frames);
    forall k | 0 <= k < |frames|
      ensures Base64.Decode(SectionsB(frames)[k].content) == Some(frames[k].bytes)
    {
      Base64.DecodeEncode(frames[k].bytes);
    }
  }
}
