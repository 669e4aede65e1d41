/** The lexer of strace lines: finding the n-th quoted string. */
module Strace {
  import opened Bytes

  const QUOTE: byte := 34
  const BACKSLASH: byte := 92

  /** The index of the first quote at or after `j` that is not taken by a backslash pair. A backslash that
      is the last byte pairs with nothing. */
  function Close(s: seq<byte>, j: nat): (r: Option<nat>)
    ensures r.Some? ==> j <= r.value < |s| && s[r.value] == QUOTE
    decreases |s| - j
  {
    if j >= |s| then None
    else if s[j] == BACKSLASH && j + 1 < |s| then Close(s, j + 2)
    else if s[j] == QUOTE then Some(j)
    else Close(s, j + 1)
  }

  /** The complete quoted strings from `i` on, left to right. An unterminated one ends the list. */
  function Quoted(s: seq<byte>, i: nat): seq<seq<byte>>
    decreases |s| - i
  {
    if i >= |s| then []
    else if s[i] != QUOTE then Quoted(s, i + 1)
    else match Close(s, i + 1)
      case None => []
      case Some(j) => [s[i + 1..j]] + Quoted(s, j + 1)
  }

  /** The scanning loop. It stays in bounds on every input, and finds the n-th quoted string exactly when
      there are that many. */
  method NthQuotedString(args: seq<byte>, n: nat) returns (r: Option<seq<byte>>)
    ensures var q := Quoted(args, 0);
            r == if n < |q| then Some(q[n]) else None
  {
    hide Quoted, Close;
    var count := 0;
    ghost var seen: seq<seq<byte>> := [];
    var i := 0;
    while i < |args|
      invariant i <= |args| && count == |seen| <= n
      invariant Quoted(args, 0) == seen + Quoted(args, i)
    {
      QuotedStep(args, i);
      if args[i] == QUOTE {
        var start := i + 1;
        var j := FindClose(args, start);
        if j >= |args| {
          return None;
        }
        if count == n {
          return Some(args[start..j]);
        }
        count := count + 1;
        seen := seen + [args[start..j]];
        i := j + 1;
      } else {
        i := i + 1;
      }
    }
    QuotedStep(args, i);
    r := None;
  }

  /** The inner loop: the closing quote, respecting backslash pairs, or the end of the text. */
  method FindClose(args: seq<byte>, start: nat) returns (j: nat)
    requires start <= |args|
    ensures start <= j <= |args|
    ensures Close(args, start) == if j < |args| then Some(j) else None
  {
    hide Close;
    j := start;
    while j < |args|
      invariant start <= j <= |args| && Close(args, start) == Close(args, j)
    {
      CloseStep(args, j);
      if args[j] == BACKSLASH && j + 1 < |args| {
        j := j + 2;
        continue;
      }
      if args[j] == QUOTE {
        return;
      }
      j := j + 1;
    }
    CloseStep(args, j);
  }

  lemma {:induction false} QuotedStep(s: seq<byte>, i: nat)
    ensures i >= |s| ==> Quoted(s, i) == []
    ensures i < |s| && s[i] != QUOTE ==> Quoted(s, i) == Quoted(s, i + 1)
    ensures i < |s| && s[i] == QUOTE ==>
              Quoted(s, i) == match Close(s, i + 1)
                              case None => []
                              case Some(j) => [s[i + 1..j]] + Quoted(s, j + 1)
  {
  }

  lemma {:induction false} CloseStep(s: seq<byte>, j: nat)
    ensures j >= |s| ==> Close(s, j) == None
    ensures j < |s| ==>
              Close(s, j) == if s[j] == BACKSLASH && j + 1 < |s| then Close(s, j + 2)
                             else if s[j] == QUOTE then Some(j) else Close(s, j + 1)
  {
  }

  // ---------------------------------------------------------------- what the lexer means

  /** A byte string that can stand between quotes: every backslash takes the byte after it, and no other
      quote occurs. */
  predicate WellEscaped(b: seq<byte>) {
    if b == [] then true
    else if b[0] == BACKSLASH then |b| >= 2 && WellEscaped(b[2..])
    else b[0] != QUOTE && WellEscaped(b[1..])
  }

  predicate QuoteFree(s: seq<byte>) {
    QUOTE !in s
  }

  /** A text without a further complete quoted string: quote-free, or a quote-free part and a quote that is
      never closed. */
  predicate Unfinished(s: seq<byte>) {
    QuoteFree(s) || exists k: nat :: k < |s| && s[k] == QUOTE && QuoteFree(s[..k]) && Close(s, k + 1).None?
  }

  /** Quote-free text, then a quoted string, repeatedly; then a rest. */
  function Print(gaps: seq<seq<byte>>, bodies: seq<seq<byte>>, rest: seq<byte>): seq<byte>
    requires |gaps| == |bodies|
  {
    if bodies == [] then rest
    else gaps[0] + [QUOTE] + bodies[0] + [QUOTE] + Print(gaps[1..], bodies[1..], rest)
  }

  lemma {:induction false} CloseShift(a: seq<byte>, s: seq<byte>, j: nat)
    ensures Close(a + s, |a| + j) == match Close(s, j) case None => None case Some(k) => Some(|a| + k)
    decreases |s| - j
  {
    if j < |s| {
      assert (a + s)[|a| + j] == s[j];
      if s[j] == BACKSLASH && j + 1 < |s| {
        CloseShift(a, s, j + 2);
      } else if s[j] != QUOTE {
        CloseShift(a, s, j + 1);
      }
    }
  }

  lemma {:induction false} QuotedShift(a: seq<byte>, s: seq<byte>, i: nat)
    ensures Quoted(a + s, |a| + i) == Quoted(s, i)
    decreases |s| - i
  {
    hide Quoted, Close;
    QuotedStep(a + s, |a| + i);
    QuotedStep(s, i);
    if i < |s| {
      assert (a + s)[|a| + i] == s[i];
      if s[i] != QUOTE {
        QuotedShift(a, s, i + 1);
      } else {
        CloseShift(a, s, i + 1);
        var c := Close(s, i + 1);
        if c.Some? {
          assert (a + s)[|a| + i + 1..|a| + c.value] == s[i + 1..c.value];
          QuotedShift(a, s, c.value + 1);
        }
      }
    }
  }

  /** Quote-free text is skipped. */
  lemma {:induction false} SkipGap(gap: seq<byte>, s: seq<byte>, i: nat)
    requires QuoteFree(gap) && i <= |gap|
    ensures Quoted(gap + s, i) == Quoted(s, 0)
    decreases |gap| - i
  {
    if i < |gap| {
      assert (gap + s)[i] == gap[i] && gap[i] in gap;
      SkipGap(gap, s, i + 1);
    } else {
      QuotedShift(gap, s, 0);
    }
  }

  /** A well-escaped body is closed by the quote that follows it, and by nothing before. */
  lemma {:induction false} BodyCloses(b: seq<byte>, s: seq<byte>)
    requires WellEscaped(b)
    ensures Close(b + [QUOTE] + s, 0) == Some(|b|)
  {
    var t := b + [QUOTE] + s;
    if b != [] {
      var n := if b[0] == BACKSLASH then 2 else 1;
      BodyCloses(b[n..], s);
      assert t == b[..n] + (b[n..] + [QUOTE] + s);
      CloseShift(b[..n], b[n..] + [QUOTE] + s, 0);
    }
  }

  lemma {:induction false} OneQuoted(gap: seq<byte>, b: seq<byte>, s: seq<byte>)
    requires QuoteFree(gap) && WellEscaped(b)
    ensures Quoted(gap + [QUOTE] + b + [QUOTE] + s, 0) == [b] + Quoted(s, 0)
  {
    var t := [QUOTE] + (b + [QUOTE] + s);
    assert gap + [QUOTE] + b + [QUOTE] + s == gap + t;
    SkipGap(gap, t, 0);
    BodyCloses(b, s);
    CloseShift([QUOTE], b + [QUOTE] + s, 0);
    assert t[1..|b| + 1] == b;
    assert t == ([QUOTE] + b + [QUOTE]) + s;
    QuotedShift([QUOTE] + b + [QUOTE], s, 0);
  }

  lemma {:induction false} UnfinishedHasNone(s: seq<byte>)
    requires Unfinished(s)
    ensures Quoted(s, 0) == []
  {
    hide Quoted, Close;
    if QuoteFree(s) {
      assert s + [] == s;
      SkipGap(s, [], 0);
      QuotedStep([], 0);
    } else {
      var k: nat :| k < |s| && s[k] == QUOTE && QuoteFree(s[..k]) && Close(s, k + 1).None?;
      Unclosed(s, k);
    }
  }

  lemma {:induction false} Unclosed(s: seq<byte>, k: nat)
    requires k < |s| && s[k] == QUOTE && QuoteFree(s[..k]) && Close(s, k + 1).None?
    ensures Quoted(s, 0) == []
  {
    hide Quoted, Close;
    var a, b := s[..k], s[k..];
    assert a + b == s;
    SkipGap(a, b, 0);
    CloseShift(a, b, 1);
    assert Close(b, 1).None?;
    QuotedStep(b, 0);
  }

  /** Soundness of the lexer: a text that is printed from bodies lexes into those bodies. */
  lemma {:induction false} LexPrinted(gaps: seq<seq<byte>>, bodies: seq<seq<byte>>, rest: seq<byte>)
    requires |gaps| == |bodies| && (forall g <- gaps :: QuoteFree(g)) && (forall b <- bodies :: WellEscaped(b))
    requires Unfinished(rest)
    ensures Quoted(Print(gaps, bodies, rest), 0) == bodies
  {
    hide Quoted, WellEscaped, QuoteFree, Unfinished;
    if bodies == [] {
      UnfinishedHasNone(rest);
    } else {
      OneQuoted(gaps[0], bodies[0], Print(gaps[1..], bodies[1..], rest));
      LexPrinted(gaps[1..], bodies[1..], rest);
    }
  }

  /** What `Close` skips is well escaped. */
  lemma {:induction false} ClosedIsEscaped(s: seq<byte>, j: nat)
    requires Close(s, j).Some?
    ensures WellEscaped(s[j..Close(s, j).value])
    decreases |s| - j
  {
    var k := Close(s, j).value;
    var b := s[j..k];
    if s[j] == BACKSLASH && j + 1 < |s| {
      ClosedIsEscaped(s, j + 2);
      assert b[2..] == s[j + 2..k];
    } else if s[j] != QUOTE {
      ClosedIsEscaped(s, j + 1);
      assert b[1..] == s[j + 1..k];
    }
  }

  ghost predicate IsPrinting(s: seq<byte>, gaps: seq<seq<byte>>, bodies: seq<seq<byte>>, rest: seq<byte>) {
    && |gaps| == |bodies| && (forall g <- gaps :: QuoteFree(g)) && (forall b <- bodies :: WellEscaped(b))
    && Unfinished(rest) && s == Print(gaps, bodies, rest)
  }

  lemma {:induction false} MorePrinting(gap: seq<byte>, b: seq<byte>, later: seq<byte>, gaps: seq<seq<byte>>,
                     bodies: seq<seq<byte>>, rest: seq<byte>)
    requires QuoteFree(gap) && WellEscaped(b) && IsPrinting(later, gaps, bodies, rest)
    ensures IsPrinting(gap + [QUOTE] + b + [QUOTE] + later, [gap] + gaps, [b] + bodies, rest)
  {
    hide WellEscaped, QuoteFree, Unfinished;
    assert ([gap] + gaps)[1..] == gaps && ([b] + bodies)[1..] == bodies;
  }

  /** Completeness: every text is printed from what it lexes into. */
  lemma {:induction false} LexIsComplete(s: seq<byte>) returns (gaps: seq<seq<byte>>, rest: seq<byte>)
    ensures IsPrinting(s, gaps, Quoted(s, 0), rest)
    decreases |s|
  {
    hide Quoted, Close, IsPrinting;
    var k := FirstQuote(s);
    var gap := s[..k];
    gaps, rest := [], s;
    if k == |s| {
      assert s == gap;
      NoPrinting(s);
    } else if Close(s, k + 1).None? {
      NoPrinting(s);
    } else {
      var j := Close(s, k + 1).value;
      var b, later := s[k + 1..j], s[j + 1..];
      ClosedIsEscaped(s, k + 1);
      CloseSpec(s, k + 1);
      assert s == gap + [QUOTE] + b + [QUOTE] + later;
      OneQuoted(gap, b, later);
      gaps, rest := LexIsComplete(later);
      MorePrinting(gap, b, later, gaps, Quoted(later, 0), rest);
      gaps := [gap] + gaps;
    }
  }

  lemma {:induction false} CloseSpec(s: seq<byte>, j: nat)
    ensures Close(s, j).Some? ==> j <= Close(s, j).value < |s| && s[Close(s, j).value] == QUOTE
  {
  }

  lemma {:induction false} NoPrinting(s: seq<byte>)
    requires Unfinished(s)
    ensures IsPrinting(s, [], Quoted(s, 0), s)
  {
    UnfinishedHasNone(s);
  }

  lemma {:induction false} FirstQuote(s: seq<byte>) returns (k: nat)
    ensures k <= |s| && QuoteFree(s[..k]) && (k < |s| ==> s[k] == QUOTE)
  {
    k := 0;
    while k < |s| && s[k] != QUOTE
      invariant k <= |s| && QuoteFree(s[..k])
    {
      k := k + 1;
    }
  }

  // ---------------------------------------------------------------- escaping

  /** A printer's escape: a backslash before each quote and backslash. */
  function Escape(b: seq<byte>): seq<byte> {
    if b == [] then []
    else (if b[0] == QUOTE || b[0] == BACKSLASH then [BACKSLASH, b[0]] else [b[0]]) + Escape(b[1..])
  }

  function Unescape(b: seq<byte>): seq<byte> {
    if b == [] then []
    else if b[0] == BACKSLASH && |b| >= 2 then [b[1]] + Unescape(b[2..])
    else [b[0]] + Unescape(b[1..])
  }

  lemma {:induction false} EscapeRoundTrip(b: seq<byte>)
    ensures WellEscaped(Escape(b)) && Unescape(Escape(b)) == b
  {
    if b != [] {
      EscapeRoundTrip(b[1..]);
      var n := if b[0] == QUOTE || b[0] == BACKSLASH then 2 else 1;
      assert Escape(b)[n..] == Escape(b[1..]);
    }
  }

  function EscapeAll(bs: seq<seq<byte>>): (r: seq<seq<byte>>)
    ensures |r| == |bs| && forall k | 0 <= k < |r| :: r[k] == Escape(bs[k])
  {
    if bs == [] then [] else [Escape(bs[0])] + EscapeAll(bs[1..])
  }

  /** Printing byte strings escaped and quoted, between quote-free separators, and asking for the n-th
      gives the n-th, still escaped. */
  lemma {:induction false} NthOfPrinted(gaps: seq<seq<byte>>, bs: seq<seq<byte>>, rest: seq<byte>, n: nat)
    requires |gaps| == |bs| && (forall g <- gaps :: QuoteFree(g)) && QuoteFree(rest)
    ensures var q := Quoted(Print(gaps, EscapeAll(bs), rest), 0);
            && |q| == |bs|
            && (n < |bs| ==> q[n] == Escape(bs[n]) && Unescape(q[n]) == bs[n])
  {
    hide Quoted, Escape, Unescape, WellEscaped, QuoteFree;
    forall b <- EscapeAll(bs)
      ensures WellEscaped(b)
    {
      var k :| 0 <= k < |bs| && EscapeAll(bs)[k] == b;
      EscapeRoundTrip(bs[k]);
    }
    assert Unfinished(rest);
    LexPrinted(gaps, EscapeAll(bs), rest);
    if n < |bs| {
      EscapeRoundTrip(bs[n]);
    }
  }
}
