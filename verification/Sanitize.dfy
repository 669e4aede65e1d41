/** The terminal-output sanitizer: the look-ahead scanner, the automaton it refines, and what its output
    can and cannot contain. */
module Sanitize {
  const ESC: char := '\U{1b}'
  const BEL: char := '\U{07}'

  /** The Unicode category Cc. */
  predicate IsControl(c: char) {
    c <= '\U{1f}' || '\U{7f}' <= c <= '\U{9f}'
  }

  predicate IsBidi(c: char) {
    '\U{202a}' <= c <= '\U{202e}' || '\U{2066}' <= c <= '\U{2069}'
  }

  predicate IsZeroWidth(c: char) {
    c == '\U{200b}' || c == '\U{200c}' || c == '\U{200d}' || c == '\U{feff}'
  }

  predicate IsAsciiAlphabetic(c: char) {
    'a' <= c <= 'z' || 'A' <= c <= 'Z'
  }

  /** What the output may contain. */
  predicate Clean(c: char) {
    !IsBidi(c) && !IsZeroWidth(c) && (IsControl(c) ==> c == '\n' || c == '\t')
  }

  predicate AllClean(s: string) {
    forall c <- s :: Clean(c)
  }

  /** The characters that reorder text, and those without width. */
  const HIDDEN := "\U{202a}\U{202b}\U{202c}\U{202d}\U{202e}\U{2066}\U{2067}\U{2068}\U{2069}"
                  + "\U{200b}\U{200c}\U{200d}\U{feff}"

  /** What is let through, by code point: no hidden character, and of the two control ranges tab and line feed
      alone. And the letters that end a control sequence. */
  lemma {:induction false} CleanIs(c: char)
    ensures Clean(c) <==>
            c !in HIDDEN && !(127 <= c as int <= 159) && (c as int >= 32 || c as int == 9 || c as int == 10)
    ensures IsAsciiAlphabetic(c) <==> 65 <= c as int <= 90 || 97 <= c as int <= 122
    ensures ESC as int == 27 && BEL as int == 7
  {
  }

  // ---------------------------------------------------------------- the automaton

  datatype Mode = Ground | AfterEsc | Csi | Osc | OscEsc

  /** One character: the next mode. */
  function Next(q: Mode, c: char): Mode {
    match q
    case Ground => if c == ESC then AfterEsc else Ground
    case AfterEsc =>
      if c == '[' then Csi else if c == ']' then Osc else if c == ESC then AfterEsc else Ground
    case Csi => if IsAsciiAlphabetic(c) || c == '~' then Ground else Csi
    case Osc => if c == BEL then Ground else if c == ESC then OscEsc else Osc
    case OscEsc => Ground
  }

  /** One character: what is let through. */
  function Emit(q: Mode, c: char): string {
    match q
    case Ground => if Clean(c) then [c] else ""
    case AfterEsc => if c != '[' && c != ']' && Clean(c) then [c] else ""
    case _ => ""
  }

  function ModeAfter(q: Mode, s: string): Mode
    decreases |s|
  {
    if s == "" then q else ModeAfter(Next(q, s[0]), s[1..])
  }

  function Output(q: Mode, s: string): string
    decreases |s|
  {
    if s == "" then "" else Emit(q, s[0]) + Output(Next(q, s[0]), s[1..])
  }

  function Sanitized(s: string): string {
    Output(Ground, s)
  }

  // ---------------------------------------------------------------- the scanner

  /** The scanning loop over a peekable iterator computes what the automaton does, one character at a
      time. The index is the iterator's position. */
  method Scan(input: string) returns (out: string)
    ensures out == Sanitized(input)
  {
    hide Output, Emit;
    out := "";
    var i := 0;
    while i < |input|
      invariant i <= |input| && Sanitized(input) == out + Output(Ground, input[i..])
    {
      var c := input[i];
      GroundStep(input, i);
      i := i + 1;
      if c == ESC {
        if i < |input| && input[i] == '[' {
          i := SkipCsi(input, i + 1);
        } else if i < |input| && input[i] == ']' {
          i := SkipOsc(input, i + 1);
        }
      } else if IsBidi(c) {
      } else if IsZeroWidth(c) {
      } else if IsControl(c) && c != '\n' && c != '\t' {
      } else {
        out := out + [c];
      }
    }
    AtEnd(input, i);
  }

  /** Skips the rest of a control sequence. */
  method SkipCsi(input: string, start: nat) returns (i: nat)
    requires start <= |input|
    ensures start <= i <= |input| && Output(Csi, input[start..]) == Output(Ground, input[i..])
  {
    hide Output, Emit;
    i := start;
    while i < |input|
      invariant start <= i <= |input| && Output(Csi, input[start..]) == Output(Csi, input[i..])
    {
      var p := input[i];
      Peel(Csi, input, i);
      i := i + 1;
      if IsAsciiAlphabetic(p) || p == '~' {
        return;
      }
    }
    AtEnd(input, i);
  }

  /** Skips the rest of an operating system command, with its terminator. */
  method SkipOsc(input: string, start: nat) returns (i: nat)
    requires start <= |input|
    ensures start <= i <= |input| && Output(Osc, input[start..]) == Output(Ground, input[i..])
  {
    hide Output, Emit;
    i := start;
    while i < |input|
      invariant start <= i <= |input| && Output(Osc, input[start..]) == Output(Osc, input[i..])
    {
      var p := input[i];
      Peel(Osc, input, i);
      i := i + 1;
      if p == BEL {
        return;
      }
      if p == ESC {
        AtEnd(input, i);
        if i < |input| {
          Peel(OscEsc, input, i);
          i := i + 1;
        }
        return;
      }
    }
    AtEnd(input, i);
  }

  /** What the automaton does from the ground on the next character, with one character of look-ahead
      after an escape. */
  lemma {:induction false} GroundStep(s: string, i: nat)
    requires i < |s|
    ensures var c := s[i];
            if c != ESC then Output(Ground, s[i..]) == (if Clean(c) then [c] else "") + Output(Ground, s[i + 1..])
            else if i + 1 < |s| && s[i + 1] == '[' then Output(Ground, s[i..]) == Output(Csi, s[i + 2..])
            else if i + 1 < |s| && s[i + 1] == ']' then Output(Ground, s[i..]) == Output(Osc, s[i + 2..])
            else Output(Ground, s[i..]) == Output(Ground, s[i + 1..])
  {
    hide Output;
    Peel(Ground, s, i);
    if s[i] == ESC {
      if i + 1 < |s| {
        Peel(AfterEsc, s, i + 1);
        Peel(Ground, s, i + 1);
      } else {
        AtEnd(s, i + 1);
      }
    }
  }

  lemma {:induction false} Peel(q: Mode, s: string, i: nat)
    requires i < |s|
    ensures Output(q, s[i..]) == Emit(q, s[i]) + Output(Next(q, s[i]), s[i + 1..])
    ensures Emit(q, s[i]) == "" ==> Output(q, s[i..]) == Output(Next(q, s[i]), s[i + 1..])
    ensures q != Ground && q != AfterEsc ==> Emit(q, s[i]) == ""
  {
    assert s[i..][1..] == s[i + 1..];
  }

  lemma {:induction false} AtEnd(s: string, i: nat)
    requires i <= |s|
    ensures i == |s| ==> forall q :: Output(q, s[i..]) == ""
  {
  }

  // ---------------------------------------------------------------- composition

  lemma {:induction false} OutputConcat(q: Mode, a: string, b: string)
    ensures Output(q, a + b) == Output(q, a) + Output(ModeAfter(q, a), b)
    ensures ModeAfter(q, a + b) == ModeAfter(ModeAfter(q, a), b)
    decreases |a|
  {
    hide Emit, Next;
    if a == "" {
      assert a + b == b;
    } else {
      assert (a + b)[1..] == a[1..] + b;
      OutputConcat(Next(q, a[0]), a[1..], b);
    }
  }

  /** Text that leaves the scanner on the ground is sanitized independently of what follows. */
  lemma {:induction false} SanitizeConcat(a: string, b: string)
    requires ModeAfter(Ground, a) == Ground
    ensures Sanitized(a + b) == Sanitized(a) + Sanitized(b)
  {
    OutputConcat(Ground, a, b);
  }

  /** The parameters of a control sequence. */
  predicate CsiBody(s: string) {
    forall c <- s :: !IsAsciiAlphabetic(c) && c != '~'
  }

  /** The text of an operating system command. */
  predicate OscBody(s: string) {
    forall c <- s :: c != BEL && c != ESC
  }

  /** A complete control sequence, or a complete operating system command with either terminator. The
      code lets any character follow the escape that ends a command. */
  predicate CompleteSequence(e: string) {
    && |e| >= 3 && e[0] == ESC
    && var last := e[|e| - 1];
       || (e[1] == '[' && CsiBody(e[2..|e| - 1]) && (IsAsciiAlphabetic(last) || last == '~'))
       || (e[1] == ']' && OscBody(e[2..|e| - 1]) && last == BEL)
       || (e[1] == ']' && |e| >= 4 && OscBody(e[2..|e| - 2]) && e[|e| - 2] == ESC)
  }

  lemma {:induction false} BodyStays(q: Mode, s: string)
    requires (q == Csi && CsiBody(s)) || (q == Osc && OscBody(s))
    ensures Output(q, s) == "" && ModeAfter(q, s) == q
    decreases |s|
  {
    if s != "" {
      assert s[0] in s && forall c <- s[1..] :: c in s;
      BodyStays(q, s[1..]);
    }
  }

  lemma {:induction false} SequenceVanishes(e: string)
    requires CompleteSequence(e)
    ensures Output(Ground, e) == "" && ModeAfter(Ground, e) == Ground
  {
    hide Output, ModeAfter;
    var n := |e|;
    var q := if e[1] == '[' then Csi else Osc;
    assert Output(Ground, e[..2]) == "" && ModeAfter(Ground, e[..2]) == q by { Introducer(e); }
    if e[1] == ']' && n >= 4 && OscBody(e[2..n - 2]) && e[n - 2] == ESC {
      assert e == e[..2] + (e[2..n - 2] + e[n - 2..]);
      BodyStays(q, e[2..n - 2]);
      TwoChars(e[n - 2..]);
      OutputConcat(q, e[2..n - 2], e[n - 2..]);
      OutputConcat(Ground, e[..2], e[2..n - 2] + e[n - 2..]);
    } else {
      assert e == e[..2] + (e[2..n - 1] + e[n - 1..]);
      BodyStays(q, e[2..n - 1]);
      OneChar(q, e[n - 1..]);
      OutputConcat(q, e[2..n - 1], e[n - 1..]);
      OutputConcat(Ground, e[..2], e[2..n - 1] + e[n - 1..]);
    }
  }

  lemma {:induction false} Introducer(e: string)
    requires |e| >= 2 && e[0] == ESC && (e[1] == '[' || e[1] == ']')
    ensures Output(Ground, e[..2]) == ""
    ensures ModeAfter(Ground, e[..2]) == if e[1] == '[' then Csi else Osc
  {
    assert e[..2][1..] == [e[1]] && [e[1]][1..] == "";
    assert Output(AfterEsc, [e[1]]) == "";
    assert ModeAfter(Ground, e[..2]) == ModeAfter(AfterEsc, [e[1]]);
    assert ModeAfter(AfterEsc, [e[1]]) == ModeAfter(Next(AfterEsc, e[1]), "");
  }

  lemma {:induction false} OneChar(q: Mode, s: string)
    requires |s| == 1 && (q == Csi || q == Osc)
    ensures Output(q, s) == "" && ModeAfter(q, s) == Next(q, s[0])
  {
    assert s[1..] == "";
  }

  lemma {:induction false} TwoChars(s: string)
    requires |s| == 2 && s[0] == ESC
    ensures Output(Osc, s) == "" && ModeAfter(Osc, s) == Ground
  {
    assert s[1..] == [s[1]] && [s[1]][1..] == "";
    assert Output(Osc, s) == Output(OscEsc, s[1..]) && ModeAfter(Osc, s) == ModeAfter(OscEsc, s[1..]);
    assert Output(OscEsc, s[1..]) == Output(Ground, "") && ModeAfter(OscEsc, s[1..]) == ModeAfter(Ground, "");
  }

  /** A complete sequence inserted where the scanner is on the ground changes nothing. */
  lemma {:induction false} SequenceIsInvisible(a: string, e: string, b: string)
    requires ModeAfter(Ground, a) == Ground && CompleteSequence(e)
    ensures Sanitized(a + e + b) == Sanitized(a + b)
  {
    hide Output, ModeAfter, CompleteSequence;
    SequenceVanishes(e);
    OutputConcat(Ground, a, e);
    OutputConcat(Ground, a + e, b);
    OutputConcat(Ground, a, b);
  }

  // ---------------------------------------------------------------- every text, piece by piece

  /** A text is cut into single characters, escapes that introduce nothing, and complete sequences. */
  datatype Piece = Single(c: char) | Lone | Whole(e: string)

  function PieceText(p: Piece): string {
    match p
    case Single(c) => [c]
    case Lone => [ESC]
    case Whole(e) => e
  }

  function Join(ps: seq<Piece>, rest: string): string {
    if ps == [] then rest else PieceText(ps[0]) + Join(ps[1..], rest)
  }

  /** What is let through: the clean ones of the single characters. */
  function Shown(ps: seq<Piece>): string {
    if ps == [] then "" else (if ps[0].Single? && Clean(ps[0].c) then [ps[0].c] else "") + Shown(ps[1..])
  }

  /** A sequence that the text ends in before it is complete. */
  predicate Unfinished(s: string) {
    && |s| >= 2 && s[0] == ESC
    && if s[1] == '[' then CsiBody(s[2..])
       else s[1] == ']' && (OscBody(s[2..]) || (|s| > 2 && s[|s| - 1] == ESC && OscBody(s[2..|s| - 1])))
  }

  predicate Cut(ps: seq<Piece>, rest: string) {
    if ps == [] then rest == "" || Unfinished(rest)
    else
      var later := Join(ps[1..], rest);
      && Cut(ps[1..], rest)
      && match ps[0]
         case Single(c) => c != ESC
         case Lone => later == "" || (later[0] != '[' && later[0] != ']')
         case Whole(e) => CompleteSequence(e)
  }

  /** What the sanitizer makes of a text, by its pieces: no clean character is lost but in a sequence. */
  lemma {:induction false} SanitizeIsByPiece(ps: seq<Piece>, rest: string)
    requires Cut(ps, rest)
    ensures Sanitized(Join(ps, rest)) == Shown(ps)
  {
    hide Output, ModeAfter, CompleteSequence, Unfinished;
    if ps == [] {
      NothingLeft();
      if rest != "" {
        UnfinishedVanishes(rest);
      }
    } else {
      var later := Join(ps[1..], rest);
      SanitizeIsByPiece(ps[1..], rest);
      match ps[0]
      case Single(c) =>
        Plainly(c);
        SanitizeConcat([c], later);
      case Lone => LoneVanishes(later);
      case Whole(e) =>
        SequenceVanishes(e);
        SanitizeConcat(e, later);
    }
  }

  lemma {:induction false} NothingLeft()
    ensures Sanitized("") == ""
  {
  }

  lemma {:induction false} Plainly(c: char)
    requires c != ESC
    ensures Sanitized([c]) == (if Clean(c) then [c] else "") && ModeAfter(Ground, [c]) == Ground
  {
    assert [c][1..] == "";
    assert Output(Ground, [c]) == Emit(Ground, c) + Output(Ground, "");
  }

  lemma {:induction false} LoneVanishes(later: string)
    requires later == "" || (later[0] != '[' && later[0] != ']')
    ensures Sanitized([ESC] + later) == Sanitized(later)
  {
    var s := [ESC] + later;
    hide Output;
    GroundStep(s, 0);
    assert s[0..] == s && s[1..] == later;
  }

  lemma {:induction false} UnfinishedVanishes(s: string)
    requires Unfinished(s)
    ensures Sanitized(s) == ""
  {
    hide Output, ModeAfter;
    var q := if s[1] == '[' then Csi else Osc;
    Introducer(s);
    assert s == s[..2] + s[2..];
    OutputConcat(Ground, s[..2], s[2..]);
    if s[1] == ']' && !OscBody(s[2..]) {
      var n := |s|;
      assert s[2..] == s[2..n - 1] + [ESC];
      BodyStays(Osc, s[2..n - 1]);
      OutputConcat(Osc, s[2..n - 1], [ESC]);
      OneChar(Osc, [ESC]);
    } else {
      BodyStays(q, s[2..]);
    }
  }

  /** Every text can be cut so. */
  lemma {:induction false} EveryTextIsCut(s: string) returns (ps: seq<Piece>, rest: string)
    ensures Cut(ps, rest) && Join(ps, rest) == s
    decreases |s|
  {
    hide CompleteSequence, Unfinished;
    if s == "" {
      return [], "";
    }
    var n := FirstPiece(s);
    if n == 0 {
      return [], s;
    }
    var p := if n > 1 then Whole(s[..n]) else if s[0] == ESC then Lone else Single(s[0]);
    ps, rest := EveryTextIsCut(s[n..]);
    assert s == s[..n] + s[n..] && PieceText(p) == s[..n];
    assert ([p] + ps)[1..] == ps;
    ps := [p] + ps;
  }

  /** The length of the first piece; zero if the text is an unfinished sequence. */
  lemma {:induction false} FirstPiece(s: string) returns (n: nat)
    requires s != ""
    ensures n <= |s| && (n == 0 ==> Unfinished(s)) && (n > 1 ==> CompleteSequence(s[..n]))
    ensures n == 1 && s[0] == ESC ==> |s| == 1 || (s[1] != '[' && s[1] != ']')
  {
    n := 1;
    if s[0] == ESC && |s| > 1 && s[1] == '[' {
      var i := BodyEnd(s, false);
      n := if i < |s| then i + 1 else 0;
      if i < |s| {
        BodyOf(s, n, i);
      } else {
        assert s[2..i] == s[2..];
      }
    } else if s[0] == ESC && |s| > 1 && s[1] == ']' {
      var i := BodyEnd(s, true);
      n := if i == |s| then 0 else if s[i] == BEL then i + 1 else if i + 1 < |s| then i + 2 else 0;
      if n > 0 {
        BodyOf(s, n, i);
      } else if i < |s| {
        assert i == |s| - 1;
      } else {
        assert s[2..i] == s[2..];
      }
    }
  }

  lemma {:induction false} BodyOf(s: string, n: nat, i: nat)
    requires 2 <= i <= n <= |s|
    ensures s[..n][2..i] == s[2..i]
  {
  }

  /** Where the body of a sequence ends. */
  lemma {:induction false} BodyEnd(s: string, osc: bool) returns (i: nat)
    requires |s| >= 2
    ensures 2 <= i <= |s|
    ensures if osc then OscBody(s[2..i]) && (i < |s| ==> s[i] == BEL || s[i] == ESC)
            else CsiBody(s[2..i]) && (i < |s| ==> IsAsciiAlphabetic(s[i]) || s[i] == '~')
  {
    i := 2;
    while i < |s| && if osc then s[i] != BEL && s[i] != ESC else !IsAsciiAlphabetic(s[i]) && s[i] != '~'
      invariant 2 <= i <= |s| && if osc then OscBody(s[2..i]) else CsiBody(s[2..i])
    {
      assert s[2..i + 1] == s[2..i] + [s[i]];
      i := i + 1;
    }
  }

  // ---------------------------------------------------------------- the output

  predicate Subsequence(a: string, b: string) {
    if a == "" then true
    else if b == "" then false
    else if a[0] == b[0] && Subsequence(a[1..], b[1..]) then true
    else Subsequence(a, b[1..])
  }

  lemma {:induction false} OutputIsClean(q: Mode, s: string)
    ensures AllClean(Output(q, s)) && Subsequence(Output(q, s), s)
    decreases |s|
  {
    if s != "" {
      OutputIsClean(Next(q, s[0]), s[1..]);
      var later := Output(Next(q, s[0]), s[1..]);
      if Emit(q, s[0]) == "" {
        assert Output(q, s) == later;
      } else {
        assert Output(q, s)[1..] == later;
      }
    }
  }

  lemma {:induction false} CleanIsKept(s: string)
    requires AllClean(s)
    ensures Output(Ground, s) == s && ModeAfter(Ground, s) == Ground
  {
    if s != "" {
      assert s[0] in s;
      CleanIsKept(s[1..]);
    }
  }

  /** The output is clean and a subsequence of the input, clean input comes through untouched, and
      sanitizing twice is sanitizing once. */
  lemma {:induction false} SanitizeIsSound(s: string)
    ensures AllClean(Sanitized(s)) && Subsequence(Sanitized(s), s)
    ensures AllClean(s) <==> Sanitized(s) == s
    ensures Sanitized(Sanitized(s)) == Sanitized(s)
  {
    OutputIsClean(Ground, s);
    CleanIsKept(Sanitized(s));
    if AllClean(s) {
      CleanIsKept(s);
    }
  }
}
