/** The second hop of Mode B: line-delimited messages from the process that sees bytes to the process
    that runs inference. */
module Ipc {
  import opened Bytes
  import opened Streams
  import opened Wire
  import opened Wording
  import Base64

  datatype Message =
    | Header(nonceHex: string, systemPrompt: string, taskPrompt: string)
    | File(relativePath: string, contentBase64: string, byteCount: nat)
    | EndFiles

  const NEWLINE: byte := 10

  /** The JSON codec of a message, and the two text operations the receiver applies to a line. */
  datatype Json = Json(
    enc: Message -> seq<byte>,
    dec: seq<byte> -> Option<Message>,
    utf8: seq<byte> -> bool,
    trimEnd: seq<byte> -> seq<byte>)
  {
    /** What is assumed of them: a message is one non-empty line of text without trailing white space,
        and decodes to itself. */
    ghost predicate Lawful() {
      forall m: Message ::
        && NEWLINE !in enc(m) && enc(m) != []
        && utf8(enc(m) + [NEWLINE]) && trimEnd(enc(m) + [NEWLINE]) == enc(m)
        && dec(enc(m)) == Some(m)
    }
  }

  datatype IpcError = IoError | ParseError

  // ---------------------------------------------------------------- the sender

  function Files(frames: seq<Frame>): (ms: seq<Message>)
    ensures |ms| == |frames| && forall m <- ms :: m.File?
  {
    if frames == [] then []
    else [File(frames[0].relativePath, Base64.Encode(frames[0].bytes), |frames[0].bytes|)] + Files(frames[1..])
  }

  function HeaderMessage(nonceHex: string): Message {
    Header(nonceHex, Say(SYSTEM_RULES), Say(TASK_SCHEMA))
  }

  function Messages(nonceHex: string, frames: seq<Frame>): seq<Message> {
    [HeaderMessage(nonceHex)] + Files(frames) + [EndFiles]
  }

  function Lines(j: Json, ms: seq<Message>): seq<byte> {
    if ms == [] then [] else j.enc(ms[0]) + [NEWLINE] + Lines(j, ms[1..])
  }

  /** The message as JSON, then a line break. */
  method WriteMessage(j: Json, w: Output, m: Message) returns (r: Result<(), WriteError>)
    modifies w
    ensures old(w.sent) <= w.sent
    ensures r.Ok? ==> w.sent == old(w.sent) + j.enc(m) + [NEWLINE]
    ensures r.Err? ==> w.sent < old(w.sent) + j.enc(m) + [NEWLINE]
  {
    ghost var goal := w.sent + j.enc(m) + [NEWLINE];
    r := w.WriteToSandboxPipe(j.enc(m));
    if r.Ok? {
      r := w.WriteToSandboxPipe([NEWLINE]);
    }
    if r.Err? {
      assert goal[..|w.sent|] == w.sent;
    }
  }

  /** One header, one message per frame, one terminator. */
  method EmitIpc(j: Json, w: Output, nonceHex: string, frames: seq<Frame>)
    returns (r: Result<(), WriteError>)
    modifies w
    ensures r.Ok? ==> w.sent == old(w.sent) + Lines(j, Messages(nonceHex, frames))
    ensures r.Err? ==> old(w.sent) <= w.sent < old(w.sent) + Lines(j, Messages(nonceHex, frames))
  {
    hide Say, Base64.Encode, Lines;
    ghost var ms := Messages(nonceHex, frames);
    ghost var goal := w.sent + Lines(j, ms);
    LinesFrom(j, ms, 0, w.sent);
    r := WriteMessage(j, w, HeaderMessage(nonceHex));
    if r.Err? {
      return;
    }
    var i := 0;
    while i < |frames|
      invariant i <= |frames| && old(w.sent) <= w.sent
      invariant goal == w.sent + Lines(j, ms[i + 1..])
    {
      var f := frames[i];
      FileAt(frames, i);
      LinesFrom(j, ms, i + 1, w.sent);
      r := WriteMessage(j, w, File(f.relativePath, Base64.Encode(f.bytes), |f.bytes|));
      if r.Err? {
        return;
      }
      i := i + 1;
    }
    LinesFrom(j, ms, i + 1, w.sent);
    LinesFrom(j, ms, i + 2, w.sent);
    r := WriteMessage(j, w, EndFiles);
    if r.Ok? {
      LinesFrom(j, ms, i + 2, w.sent);
    }
  }

  lemma {:induction false} LinesFrom(j: Json, ms: seq<Message>, i: nat, base: seq<byte>)
    requires i <= |ms|
    ensures i < |ms| ==> base + Lines(j, ms[i..]) == base + j.enc(ms[i]) + [NEWLINE] + Lines(j, ms[i + 1..])
    ensures i == |ms| ==> base + Lines(j, ms[i..]) == base
    ensures ms[0..] == ms
  {
    if i < |ms| {
      assert ms[i..][1..] == ms[i + 1..];
    }
  }

  lemma {:induction false} FileAt(frames: seq<Frame>, i: nat)
    requires i < |frames|
    ensures Files(frames)[i] == File(frames[i].relativePath, Base64.Encode(frames[i].bytes), |frames[i].bytes|)
  {
    hide Base64.Encode;
    if i > 0 {
      FileAt(frames[1..], i - 1);
    }
  }

  // ---------------------------------------------------------------- the receiver

  /** The length of the first line of `s`, line break included, if it is complete. */
  function LineLength(s: seq<byte>): (r: Option<nat>)
    ensures r.Some? ==> 0 < r.value <= |s| && s[r.value - 1] == NEWLINE && NEWLINE !in s[..r.value - 1]
    ensures r.None? ==> NEWLINE !in s
  {
    if s == [] then None
    else if s[0] == NEWLINE then Some(1)
    else match LineLength(s[1..])
      case None => None
      case Some(n) => Some(n + 1)
  }

  /** The outcome of reading messages from the bytes at hand. `More` is a read that has to wait. */
  datatype Outcome = Done(messages: seq<Message>, used: nat) | More | Failed(error: IpcError)

  function After(ms: seq<Message>, used: nat, r: Outcome): Outcome {
    match r
    case Done(later, n) => Done(ms + later, used + n)
    case _ => r
  }

  /** Reads lines until the terminator message, skipping blank ones. At end of file a last unterminated
      line still counts, and an exhausted input ends the messages. */
  function ReadLines(j: Json, s: seq<byte>, eof: bool): (r: Outcome)
    ensures r.Done? ==> r.used <= |s|
    decreases |s|
  {
    var n := LineLength(s);
    if n.None? && !eof then More
    else if s == [] then Done([], 0)
    else
      var len := if n.Some? then n.value else |s|;
      ReadLine(j, s, eof, len)
  }

  function ReadLine(j: Json, s: seq<byte>, eof: bool, len: nat): (r: Outcome)
    requires 0 < len <= |s|
    ensures r.Done? ==> r.used <= |s|
    decreases |s|, 0
  {
    if !j.utf8(s[..len]) then Failed(IoError) else
    var trimmed := j.trimEnd(s[..len]);
    if trimmed == [] then After([], len, ReadLines(j, s[len..], eof))
    else match j.dec(trimmed)
      case None => Failed(ParseError)
      case Some(m) => if m.EndFiles? then Done([m], len) else After([m], len, ReadLines(j, s[len..], eof))
  }

  lemma {:induction false} AfterTwice(ms: seq<Message>, used: nat, m: seq<Message>, n: nat, r: Outcome)
    ensures After(ms, used, After(m, n, r)) == After(ms + m, used + n, r)
    ensures After([], 0, r) == r
  {
    if r.Done? {
      assert ms + (m + r.messages) == ms + m + r.messages;
      assert [] + r.messages == r.messages;
    }
  }

  method ReadOneLine(r: Input) returns (line: seq<byte>)
    requires r.Valid()
    modifies r
    ensures r.Valid()
    ensures var s := old(r.Rest());
            var n := LineLength(s);
            var len := if n.Some? then n.value else |s|;
            line == s[..len] && r.pos == old(r.pos) + len
  {
    line := [];
    ghost var s := r.Rest();
    while true
      invariant r.Valid() && |line| <= |s| && line == s[..|line|] && r.pos == old(r.pos) + |line|
      invariant NEWLINE !in line
      decreases |s| - |line|
    {
      var chunk := r.Read(1);
      if chunk == [] {
        NoLine(s, line);
        return;
      }
      line := line + chunk;
      if chunk[0] == NEWLINE {
        FirstLine(s, |line|);
        return;
      }
    }
  }

  lemma {:induction false} NoLine(s: seq<byte>, line: seq<byte>)
    requires line == s && NEWLINE !in s
    ensures LineLength(s).None?
  {
  }

  lemma {:induction false} FirstLine(s: seq<byte>, n: nat)
    requires 0 < n <= |s| && s[n - 1] == NEWLINE && NEWLINE !in s[..n - 1]
    ensures LineLength(s) == Some(n)
  {
    assert NEWLINE in s;
  }

  /** The receiver's loop over an input that has been written completely. */
  method ReadMessages(j: Json, r: Input) returns (out: Result<seq<Message>, IpcError>)
    requires r.Valid()
    modifies r
    ensures r.Valid()
    ensures match ReadLines(j, old(r.Rest()), true)
            case Done(ms, used) => out == Ok(ms) && r.pos == old(r.pos) + used
            case More => false
            case Failed(e) => out == Err(e)
  {
    hide LineLength;
    ghost var s := r.Rest();
    var messages := [];
    AfterTwice([], 0, [], 0, ReadLines(j, s, true));
    while true
      invariant r.Valid() && old(r.pos) <= r.pos
      invariant ReadLines(j, s, true) == After(messages, r.pos - old(r.pos), ReadLines(j, r.Rest(), true))
      decreases |r.data| - r.pos
    {
      ghost var here, used := r.Rest(), r.pos - old(r.pos);
      var line := ReadOneLine(r);
      if line == [] {
        assert messages + [] == messages;
        break;
      }
      assert here[|line|..] == r.Rest();
      if !j.utf8(line) {
        return Err(IoError);
      }
      var trimmed := j.trimEnd(line);
      ghost var later := ReadLines(j, r.Rest(), true);
      if trimmed == [] {
        AfterTwice(messages, used, [], |line|, later);
        assert messages + [] == messages;
        continue;
      }
      var m := j.dec(trimmed);
      if m.None? {
        return Err(ParseError);
      }
      AfterTwice(messages, used, [m.value], |line|, later);
      messages := messages + [m.value];
      if m.value.EndFiles? {
        break;
      }
    }
    out := Ok(messages);
  }

  // ---------------------------------------------------------------- prefixes and the round trip

  lemma {:induction false} LineOfPrefix(s: seq<byte>, x: seq<byte>)
    ensures LineLength(s).Some? ==> LineLength(s + x) == LineLength(s)
  {
    if s != [] && s[0] != NEWLINE {
      LineOfPrefix(s[1..], x);
      assert (s + x)[1..] == s[1..] + x;
    }
  }

  /** A verdict on the bytes received so far stands, whatever arrives later. */
  lemma {:induction false} ReadIgnoresTail(j: Json, s: seq<byte>, x: seq<byte>)
    ensures !ReadLines(j, s, false).More? ==> ReadLines(j, s + x, false) == ReadLines(j, s, false)
    decreases |s|
  {
    hide LineLength;
    LineOfPrefix(s, x);
    var n := LineLength(s);
    if n.Some? {
      assert (s + x)[..n.value] == s[..n.value] && (s + x)[n.value..] == s[n.value..] + x;
      ReadIgnoresTail(j, s[n.value..], x);
    }
  }

  lemma {:induction false} LeadingLine(j: Json, m: Message, later: seq<byte>)
    requires j.Lawful()
    ensures var line := j.enc(m) + [NEWLINE];
            var s := line + later;
            LineLength(s) == Some(|line|) && s[..|line|] == line && s[|line|..] == later
  {
    hide LineLength;
    var line := j.enc(m) + [NEWLINE];
    assert (line + later)[..|line| - 1] == j.enc(m);
    FirstLine(line + later, |line|);
  }

  /** What the receiver makes of any input, line by line: a line that is not text or not a message is an error, a
      blank one is skipped, and the terminator ends the messages. */
  lemma {:induction false} ReadByLine(j: Json, line: seq<byte>, s: seq<byte>, eof: bool)
    requires NEWLINE !in line
    ensures var (raw, r) := (line + [NEWLINE], ReadLines(j, line + [NEWLINE] + s, eof));
            if !j.utf8(raw) then r == Failed(IoError)
            else if j.trimEnd(raw) == [] then r == After([], |raw|, ReadLines(j, s, eof))
            else match j.dec(j.trimEnd(raw))
              case None => r == Failed(ParseError)
              case Some(m) => r == if m.EndFiles? then Done([m], |raw|) else After([m], |raw|, ReadLines(j, s, eof))
    ensures NEWLINE == 10
  {
    hide LineLength;
    var raw := line + [NEWLINE];
    assert (raw + s)[..|raw| - 1] == line && (raw + s)[..|raw|] == raw && (raw + s)[|raw|..] == s;
    FirstLine(raw + s, |raw|);
  }

  /** And of what no line break follows: more may come, or it is the last line. */
  lemma {:induction false} ReadRest(j: Json, rest: seq<byte>)
    requires NEWLINE !in rest
    ensures ReadLines(j, rest, false).More?
    ensures var r := ReadLines(j, rest, true);
            if rest == [] then r == Done([], 0)
            else if !j.utf8(rest) then r == Failed(IoError)
            else if j.trimEnd(rest) == [] then r == Done([], |rest|)
            else match j.dec(j.trimEnd(rest))
              case None => r == Failed(ParseError)
              case Some(m) => r == Done([m], |rest|)
  {
    hide LineLength;
    NoLine(rest, rest);
    if rest != [] {
      NoLine([], []);
      assert rest[..|rest|] == rest && rest[|rest|..] == [];
      assert ReadLines(j, [], true) == Done([], 0);
    }
  }

  /** The receiver takes back exactly the messages sent, up to and including the terminator, and reads
      no further. */
  lemma {:induction false} LinesRoundTrip(j: Json, ms: seq<Message>, x: seq<byte>, eof: bool)
    requires j.Lawful() && ms != [] && ms[|ms| - 1].EndFiles?
    requires forall k | 0 <= k < |ms| - 1 :: !ms[k].EndFiles?
    ensures ReadLines(j, Lines(j, ms) + x, eof) == Done(ms, |Lines(j, ms)|)
  {
    hide LineLength;
    var line, later := j.enc(ms[0]) + [NEWLINE], Lines(j, ms[1..]) + x;
    var s := Lines(j, ms) + x;
    assert s == line + later;
    LeadingLine(j, ms[0], later);
    if |ms| > 1 {
      LinesRoundTrip(j, ms[1..], x, eof);
      assert [ms[0]] + ms[1..] == ms;
    } else {
      assert ms == [EndFiles];
      assert Lines(j, ms) == line + [];
    }
  }

  /** Every proper prefix of a terminated message stream makes the receiver wait for more. */
  lemma {:induction false} PrefixWaits(j: Json, ms: seq<Message>, k: nat)
    requires j.Lawful() && ms != [] && ms[|ms| - 1].EndFiles?
    requires forall i | 0 <= i < |ms| - 1 :: !ms[i].EndFiles?
    requires k < |Lines(j, ms)|
    ensures ReadLines(j, Lines(j, ms)[..k], false).More?
  {
    hide Lines, ReadLines;
    var s := Lines(j, ms);
    assert s + [] == s && s[..k] + s[k..] == s;
    LinesRoundTrip(j, ms, [], false);
    ReadIgnoresTail(j, s[..k], s[k..]);
    UsedIsBounded(j, s[..k]);
  }

  lemma {:induction false} UsedIsBounded(j: Json, s: seq<byte>)
    ensures ReadLines(j, s, false).Done? ==> ReadLines(j, s, false).used <= |s|
  {
  }

  /** The whole hop: what is emitted for a list of frames is read back as the same messages. */
  lemma {:induction false} HopRoundTrip(j: Json, nonceHex: string, frames: seq<Frame>, x: seq<byte>, eof: bool)
    requires j.Lawful()
    ensures var ms := Messages(nonceHex, frames);
            && ReadLines(j, Lines(j, ms) + x, eof) == Done(ms, |Lines(j, ms)|)
            && forall k: nat | k < |Lines(j, ms)| :: ReadLines(j, Lines(j, ms)[..k], false).More?
  {
    hide Lines, ReadLines, Say, Files;
    var ms := Messages(nonceHex, frames);
    assert forall k | 0 <= k < |ms| - 1 :: !ms[k].EndFiles? by {
      assert forall k | 0 <= k < |frames| :: Files(frames)[k] in Files(frames);
    }
    LinesRoundTrip(j, ms, x, eof);
    forall k: nat | k < |Lines(j, ms)|
      ensures ReadLines(j, Lines(j, ms)[..k], false).More?
    {
      PrefixWaits(j, ms, k);
    }
  }
}
