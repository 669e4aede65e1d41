/** Exactly which lines of a recording are recognised, and as what: the parser's answer on every line, stated
    without it. */
module StraceForms {
  import opened Bytes
  import opened Text
  import opened Boundary
  import opened Strace
  import opened TraceCheck
  import opened StraceLines

  predicate Spells(b: seq<byte>, s: string) {
    |b| == |s| && forall k | 0 <= k < |s| :: b[k] == s[k] as int
  }

  /** The calls that are recognised, and the two address markers. */
  lemma {:induction false} NamesAre()
    ensures Spells(OPENAT, "openat(") && Spells(OPENAT2, "openat2(")
    ensures Spells(EXECVE, "execve(") && Spells(EXECVEAT, "execveat(")
    ensures Spells(WRITE, "write(") && Spells(READ, "read(") && Spells(CONNECT, "connect(")
    ensures Spells(INET_ADDR, "inet_addr(\"") && Spells(HTONS, "htons(")
    ensures Spells([QUOTE, BACKSLASH, COMMA, OPEN_BRACKET, CLOSE_BRACKET, CLOSE_PAREN, PLUS, MINUS], "\"\\,[])+-")
  {
  }

  // ---------------------------------------------------------------- white space

  /** The code points with the White_Space property. */
  predicate IsWhite(cp: nat) {
    || 9 <= cp <= 13 || cp == 32 || cp == 0x85 || cp == 0xA0 || cp == 0x1680 || 0x2000 <= cp <= 0x200A
    || cp == 0x2028 || cp == 0x2029 || cp == 0x202F || cp == 0x205F || cp == 0x3000
  }

  /** UTF-8, for code points of up to sixteen bits. */
  function Utf8Of(cp: nat): (b: seq<byte>)
    requires cp < 0x1_0000
    ensures 1 <= |b| <= 3
  {
    if cp < 0x80 then [cp]
    else if cp < 0x800 then [0xC0 + cp / 64, 0x80 + cp % 64]
    else [0xE0 + cp / 4096, 0x80 + cp / 64 % 64, 0x80 + cp % 64]
  }

  /** One white-space character. */
  ghost predicate White(b: seq<byte>) {
    exists cp: nat :: cp < 0x1_0000 && IsWhite(cp) && b == Utf8Of(cp)
  }

  lemma {:induction false} WhiteIsSpace(b: seq<byte>, s: seq<byte>)
    requires White(b) && b <= s
    ensures 1 <= |b| <= 3 && SpaceAt(s) == |b|
  {
    assert forall k | 0 <= k < |b| :: s[k] == b[k];
  }

  lemma {:induction false} SpaceIsWhite(s: seq<byte>)
    requires SpaceAt(s) > 0
    ensures White(s[..SpaceAt(s)])
  {
    var w := SpaceAt(s);
    var (a, b, c) := (s[0] as int, if w > 1 then s[1] as int else 0, if w > 2 then s[2] as int else 0);
    var cp: nat := if w == 1 then a else if w == 2 then b else (a - 0xE0) * 4096 + (b - 0x80) * 64 + (c - 0x80);
    assert IsWhite(cp);
    assert Utf8Of(cp) == s[..w];
  }

  /** No end of a white-space character is one. */
  lemma {:induction false} EndIsNoSpace(b: seq<byte>, k: nat)
    requires White(b) && 0 < k < |b|
    ensures SpaceAt(b[|b| - k..]) != k
  {
    var t := b[|b| - k..];
    assert t[0] == b[|b| - k];
  }

  /** White space, character after character. */
  ghost predicate Spaces(s: seq<byte>)
    decreases |s|
  {
    s == [] || exists w: nat :: 0 < w <= |s| && White(s[..w]) && Spaces(s[w..])
  }

  lemma {:induction false} SpacesStep(s: seq<byte>)
    requires s != []
    ensures Spaces(s) <==> SpaceAt(s) > 0 && Spaces(s[SpaceAt(s)..])
  {
    hide SpaceAt, White;
    if Spaces(s) {
      var w: nat :| 0 < w <= |s| && White(s[..w]) && Spaces(s[w..]);
      WhiteIsSpace(s[..w], s);
    }
    if SpaceAt(s) > 0 {
      SpaceIsWhite(s);
    }
  }

  lemma {:induction false} TrimStep(s: seq<byte>)
    ensures SpaceAt(s) == 0 ==> TrimStart(s) == s
    ensures SpaceAt(s) > 0 ==> TrimStart(s) == TrimStart(s[SpaceAt(s)..])
    ensures SpaceBefore(s) == 0 ==> TrimEnd(s) == s
    ensures SpaceBefore(s) > 0 ==> TrimEnd(s) == TrimEnd(s[..|s| - SpaceBefore(s)])
  {
    hide SpaceAt, SpaceBefore;
  }

  lemma {:induction false} BlankIsSpaces(s: seq<byte>)
    ensures Blank(s) <==> Spaces(s)
    decreases |s|
  {
    hide SpaceAt, TrimStart, Spaces;
    TrimStep(s);
    EmptyIsBlank();
    if s != [] {
      SpacesStep(s);
      if SpaceAt(s) > 0 {
        BlankIsSpaces(s[SpaceAt(s)..]);
      }
    }
  }

  lemma {:induction false} EmptyIsBlank()
    ensures TrimStart([]) == [] && TrimEnd([]) == [] && Spaces([]) && SpaceAt([]) == 0 && SpaceBefore([]) == 0
  {
  }

  /** What is cut off at the front is white space, and nothing more can be. */
  lemma {:induction false} TrimStartSplits(s: seq<byte>) returns (a: seq<byte>)
    ensures Spaces(a) && s == a + TrimStart(s) && SpaceAt(TrimStart(s)) == 0
    decreases |s|
  {
    hide SpaceAt, TrimStart, Spaces, White;
    TrimStep(s);
    EmptyIsBlank();
    a := [];
    var w := SpaceAt(s);
    if w > 0 {
      a := TrimStartSplits(s[w..]);
      SpaceIsWhite(s);
      assert s == s[..w] + a + TrimStart(s[w..]);
      SpacesAfter(s[..w], a);
      a := s[..w] + a;
    }
  }

  lemma {:induction false} SpacesAfter(b: seq<byte>, a: seq<byte>)
    requires White(b) && Spaces(a)
    ensures Spaces(b + a)
  {
    hide White;
    WhiteIsSpace(b, b);
    assert (b + a)[..|b|] == b && (b + a)[|b|..] == a;
  }

  lemma {:induction false} SpacesConcat(a: seq<byte>, b: seq<byte>)
    requires Spaces(a) && Spaces(b)
    ensures Spaces(a + b)
    decreases |a|
  {
    hide White;
    if a == [] {
      assert a + b == b;
    } else {
      var w: nat :| 0 < w <= |a| && White(a[..w]) && Spaces(a[w..]);
      SpacesConcat(a[w..], b);
      SpacesAfter(a[..w], a[w..] + b);
      assert a + b == a[..w] + (a[w..] + b);
    }
  }

  lemma {:induction false} OneSpace(b: seq<byte>)
    requires White(b)
    ensures Spaces(b)
  {
    hide White;
    EmptyIsBlank();
    SpacesAfter(b, []);
    assert b + [] == b;
  }

  /** A white-space character is cut off at the end. */
  lemma {:induction false} WhiteBefore(s: seq<byte>, b: seq<byte>)
    requires White(b)
    ensures TrimEnd(s + b) == TrimEnd(s)
  {
    var t := s + b;
    hide SpaceAt, White, TrimEnd;
    WhiteIsSpace(b, b);
    if |b| > 1 {
      EndIsNoSpace(b, 1);
      assert t[|t| - 1..] == b[|b| - 1..];
    }
    if |b| > 2 {
      EndIsNoSpace(b, 2);
      assert t[|t| - 2..] == b[|b| - 2..];
    }
    assert t[|t| - |b|..] == b && t[..|t| - |b|] == s;
    assert SpaceBefore(t) == |b|;
    TrimStep(t);
  }

  lemma {:induction false} SpaceBeforeIsWhite(s: seq<byte>)
    requires SpaceBefore(s) > 0
    ensures White(s[|s| - SpaceBefore(s)..])
  {
    hide White, SpaceAt;
    var t := s[|s| - SpaceBefore(s)..];
    SpaceIsWhite(t);
    assert t[..|t|] == t;
  }

  lemma {:induction false} LastSpace(a: seq<byte>) returns (k: nat)
    requires Spaces(a) && a != []
    ensures k < |a| && Spaces(a[..k]) && White(a[k..])
    decreases |a|
  {
    hide White;
    var w: nat :| 0 < w <= |a| && White(a[..w]) && Spaces(a[w..]);
    if w == |a| {
      k := 0;
      assert a[..w] == a[0..];
    } else {
      var j := LastSpace(a[w..]);
      k := w + j;
      SpacesAfter(a[..w], a[w..][..j]);
      assert a[..k] == a[..w] + a[w..][..j] && a[k..] == a[w..][j..];
    }
  }

  lemma {:induction false} TrimEndDrops(s: seq<byte>, a: seq<byte>)
    requires Spaces(a)
    ensures TrimEnd(s + a) == TrimEnd(s)
    decreases |a|
  {
    hide TrimEnd, Spaces, White;
    if a == [] {
      assert s + a == s;
    } else {
      var k := LastSpace(a);
      assert s + a == s + a[..k] + a[k..];
      WhiteBefore(s + a[..k], a[k..]);
      TrimEndDrops(s, a[..k]);
    }
  }

  lemma {:induction false} TrimEndSplits(s: seq<byte>) returns (a: seq<byte>)
    ensures Spaces(a) && s == TrimEnd(s) + a
    decreases |s|
  {
    hide TrimEnd, Spaces, White, SpaceBefore;
    TrimStep(s);
    EmptyIsBlank();
    a := [];
    var w := SpaceBefore(s);
    if w > 0 {
      var front, last := s[..|s| - w], s[|s| - w..];
      SpaceBeforeIsWhite(s);
      a := TrimEndSplits(front);
      OneSpace(last);
      SpacesConcat(a, last);
      assert s == TrimEnd(front) + (a + last);
      a := a + last;
    }
  }

  // ---------------------------------------------------------------- numbers

  predicate AllDigits(s: seq<byte>) {
    forall k | 0 <= k < |s| :: 48 <= s[k] <= 57
  }

  /** The number that digits denote after others that denote `n`; the last digit counts once. */
  function Denoted(n: nat, s: seq<byte>): nat
    requires AllDigits(s)
  {
    if s == [] then n else 10 * Denoted(n, s[..|s| - 1]) + (s[|s| - 1] - 48)
  }

  lemma {:induction false} FirstDigit(n: nat, d: byte, s: seq<byte>)
    requires 48 <= d <= 57 && AllDigits(s)
    ensures AllDigits([d] + s) && Denoted(n, [d] + s) == Denoted(10 * n + (d - 48), s)
    decreases |s|
  {
    var t := [d] + s;
    if s == [] {
      assert t[..0] == [];
      assert Denoted(n, t[..|t| - 1]) == n;
    } else {
      FirstDigit(n, d, s[..|s| - 1]);
      assert t[..|t| - 1] == [d] + s[..|s| - 1];
    }
  }

  lemma {:induction false} ParseDigitsIs(s: seq<byte>, n: nat)
    ensures AllDigits(s) ==> ParseDigits(s, n) == Some(Denoted(n, s))
    ensures !AllDigits(s) ==> ParseDigits(s, n).None?
  {
    if s != [] {
      assert s == [s[0]] + s[1..];
      if 48 <= s[0] <= 57 {
        ParseDigitsIs(s[1..], 10 * n + (s[0] - 48));
        if AllDigits(s[1..]) {
          FirstDigit(n, s[0], s[1..]);
        }
      }
    }
  }

  /** A decimal numeral: digits, perhaps after a plus sign or, if it may be negative, a minus sign. */
  predicate Numeral(s: seq<byte>, signed: bool, n: int) {
    || (s != [] && AllDigits(s) && n == Denoted(0, s))
    || (|s| > 1 && s[0] == PLUS && AllDigits(s[1..]) && n == Denoted(0, s[1..]))
    || (signed && |s| > 1 && s[0] == MINUS && AllDigits(s[1..]) && n == 0 - Denoted(0, s[1..]))
  }

  lemma {:induction false} ParseIntIs(s: seq<byte>, low: int, high: int, n: int)
    ensures ParseInt(s, low, high) == Some(n) <==> Numeral(s, low < 0, n) && low <= n <= high
  {
    hide ParseDigits, Denoted;
    if s != [] {
      ParseDigitsIs(s, 0);
      ParseDigitsIs(s[1..], 0);
    }
  }

  lemma {:induction false} NumeralIsVisible(s: seq<byte>, signed: bool, n: int)
    requires Numeral(s, signed, n)
    ensures s != [] && 32 < s[0] < 127 && 32 < s[|s| - 1] < 127 && COMMA !in s
  {
    hide Denoted;
    assert |s| > 1 ==> s[|s| - 1] == s[1..][|s| - 2];
    assert forall k | 0 < k < |s| :: s[k] == s[1..][k - 1];
  }

  // ---------------------------------------------------------------- fields

  /** The first of the arguments, up to a comma or the end of the line, is a 32-bit number between white space. */
  ghost predicate LeadingInt(args: seq<byte>, n: int) {
    exists a, num, b, tail :: FirstField(args, a, num, b, tail) && Numeral(num, true, n) && IsI32(n)
  }

  ghost predicate FirstField(args: seq<byte>, a: seq<byte>, num: seq<byte>, b: seq<byte>, tail: seq<byte>) {
    && Spaces(a) && Spaces(b) && COMMA !in a + num + b && (tail == [] || tail[0] == COMMA)
    && args == a + num + b + tail
  }

  function FieldEnd(args: seq<byte>): (k: nat)
    ensures k <= |args| && COMMA !in args[..k] && (k < |args| ==> args[k] == COMMA)
  {
    match First([COMMA], args, 0)
    case None =>
      assert COMMA !in args by {
        if k :| 0 <= k < |args| && args[k] == COMMA {
          assert Occurs([COMMA], args, k);
        }
      }
      assert args[..|args|] == args;
      |args|
    case Some(i) =>
      assert Occurs([COMMA], args, i) && args[i] == args[i..i + 1][0];
      assert COMMA !in args[..i] by {
        if k :| 0 <= k < i && args[..i][k] == COMMA {
          assert Occurs([COMMA], args, k);
        }
      }
      i
  }

  lemma {:induction false} FirstTokenIs(args: seq<byte>)
    ensures FirstTokenInt(args) == ParseInt(TrimEnd(TrimStart(args[..FieldEnd(args)])), -0x8000_0000, 0x7FFF_FFFF)
  {
    hide TrimStart, TrimEnd, ParseInt;
    assert args[..|args|] == args;
  }

  lemma {:induction false} LeadingIntIs(args: seq<byte>, n: int)
    ensures FirstTokenInt(args) == Some(n) <==> LeadingInt(args, n)
  {
    hide FirstTokenInt, TrimStart, TrimEnd, ParseInt, Numeral, Spaces, FieldEnd;
    FirstTokenIs(args);
    var k := FieldEnd(args);
    var token := args[..k];
    var num := TrimEnd(TrimStart(token));
    ParseIntIs(num, -0x8000_0000, 0x7FFF_FFFF, n);
    if FirstTokenInt(args) == Some(n) {
      var a := TrimStartSplits(token);
      var b := TrimEndSplits(TrimStart(token));
      assert token == a + num + b && args == token + args[k..];
      assert FirstField(args, a, num, b, args[k..]);
    }
    if LeadingInt(args, n) {
      var a, m, b, tail :| FirstField(args, a, m, b, tail) && Numeral(m, true, n) && IsI32(n);
      TokenIs(args, a, m, b, tail, n);
    }
  }

  lemma {:induction false} TokenIs(args: seq<byte>, a: seq<byte>, num: seq<byte>, b: seq<byte>, tail: seq<byte>, n: int)
    requires FirstField(args, a, num, b, tail) && Numeral(num, true, n)
    ensures TrimEnd(TrimStart(args[..FieldEnd(args)])) == num
  {
    hide TrimStart, TrimEnd, Numeral, Spaces, FieldEnd;
    var token := a + num + b;
    FieldEndIs(args, token, tail);
    NumeralIsVisible(num, true, n);
    BlankIsSpaces(a);
    assert token == a + (num + b);
    TrimBlank(a, num + b);
    VisibleStart(num + b);
    TrimEndDrops(num, b);
    NothingToTrim(num);
    VisibleStart(num);
  }

  lemma {:induction false} VisibleStart(s: seq<byte>)
    requires s != [] && 32 < s[0] < 127
    ensures SpaceAt(s) == 0 && TrimStart(s) == s
  {
  }

  lemma {:induction false} FieldEndIs(args: seq<byte>, token: seq<byte>, tail: seq<byte>)
    requires args == token + tail && COMMA !in token && (tail == [] || tail[0] == COMMA)
    ensures args[..FieldEnd(args)] == token
  {
    var k := FieldEnd(args);
    Member(token, k);
    Member(args[..k], |token|);
    assert tail != [] ==> args[|token|] == tail[0];
  }

  lemma {:induction false} Member(s: seq<byte>, k: nat)
    ensures k < |s| ==> s[k] in s
  {
  }

  /** The first quoted string of the arguments, between its quotes. */
  ghost predicate FirstString(args: seq<byte>, b: seq<byte>) {
    exists gap, rest :: QuoteFree(gap) && WellEscaped(b) && args == gap + [QUOTE] + b + [QUOTE] + rest
  }

  lemma {:induction false} FirstStringIs(args: seq<byte>, b: seq<byte>)
    ensures FirstQuoted(args) == Some(b) <==> FirstString(args, b)
  {
    hide Quoted, WellEscaped, QuoteFree, Strace.Unfinished;
    if FirstQuoted(args) == Some(b) {
      var gaps, rest := LexIsComplete(args);
      var q := Quoted(args, 0);
      assert gaps[0] in gaps && q[0] in q;
      assert args == gaps[0] + [QUOTE] + q[0] + [QUOTE] + Print(gaps[1..], q[1..], rest);
    }
    if FirstString(args, b) {
      var gap, rest :| QuoteFree(gap) && WellEscaped(b) && args == gap + [QUOTE] + b + [QUOTE] + rest;
      OneQuoted(gap, b, rest);
    }
  }

  lemma {:induction false} ShowsIs(args: seq<byte>, marker: seq<byte>, close: byte, content: seq<byte>)
    ensures Between(marker, close, args) == Some(content) <==> Shows(args, marker, content, close)
  {
    if Shows(args, marker, content, close) {
      BetweenShows(args, marker, content, close);
    }
    if Between(marker, close, args) == Some(content) {
      var s := args[First(marker, args, 0).value + |marker|..];
      var end := First([close], s, 0).value;
      assert s[end..end + 1] == [close];
      assert content + [close] == s[..end + 1];
      if k :| 0 <= k < end && s[..end][k] == close {
        assert Occurs([close], s, k);
      }
    }
  }

  // ---------------------------------------------------------------- calls and lines

  predicate Calls(body: seq<byte>, name: seq<byte>, args: seq<byte>) {
    body == name + args
  }

  ghost predicate ShowsAddress(args: seq<byte>, host: seq<byte>, port: nat) {
    && Shows(args, INET_ADDR, host, QUOTE) && port <= 0xFFFF
    && exists text :: Shows(args, HTONS, text, CLOSE_PAREN) && Numeral(text, false, port)
  }

  /** What a line says, once its lead is off: the seven calls that are recognised, and what each must show. */
  ghost predicate Denotes(body: seq<byte>, e: Recorded) {
    match e
    case OpenP(path) =>
      exists args :: (Calls(body, OPENAT, args) || Calls(body, OPENAT2, args)) && FirstString(args, path)
    case ExecP(path, argv, env) =>
      && argv == [] && env == []
      && exists args :: (Calls(body, EXECVE, args) || Calls(body, EXECVEAT, args)) && FirstString(args, path)
    case WriteF(fd, b) => exists args :: Calls(body, WRITE, args) && LeadingInt(args, fd) && FirstString(args, b)
    case ReadF(fd) => exists args :: Calls(body, READ, args) && LeadingInt(args, fd)
    case NetConn(host, port) => exists args :: Calls(body, CONNECT, args) && ShowsAddress(args, host, port)
  }

  lemma {:induction false} AddressIs(args: seq<byte>, host: seq<byte>, port: nat)
    ensures Connected(args) == Some(NetConn(host, port)) <==> ShowsAddress(args, host, port)
    ensures Connected(args).Some? ==> Connected(args).value.NetConn?
  {
    hide Between, Shows, ParseInt, Numeral;
    ShowsIs(args, INET_ADDR, QUOTE, host);
    if Connected(args) == Some(NetConn(host, port)) {
      var text := Between(HTONS, CLOSE_PAREN, args).value;
      ShowsIs(args, HTONS, CLOSE_PAREN, text);
      ParseIntIs(text, 0, 0xFFFF, port);
    }
    if ShowsAddress(args, host, port) {
      var text :| Shows(args, HTONS, text, CLOSE_PAREN) && Numeral(text, false, port);
      ShowsIs(args, HTONS, CLOSE_PAREN, text);
      ParseIntIs(text, 0, 0xFFFF, port);
    }
  }

  /** The parsers of the arguments of each call, in these terms. */
  lemma {:induction false} ArgsAre(args: seq<byte>, e: Recorded)
    ensures Opened(args) == Some(e) <==> e.OpenP? && FirstString(args, e.path)
    ensures Executed(args) == Some(e) <==> e.ExecP? && FirstString(args, e.path) && e.args == [] && e.env == []
    ensures Wrote(args) == Some(e) <==> e.WriteF? && LeadingInt(args, e.fd) && FirstString(args, e.bytes)
    ensures HasRead(args) == Some(e) <==> e.ReadF? && LeadingInt(args, e.fd)
    ensures Connected(args) == Some(e) <==> e.NetConn? && ShowsAddress(args, e.host, e.port)
  {
    hide FirstQuoted, FirstTokenInt, Connected, FirstString, LeadingInt, ShowsAddress;
    match e
    case OpenP(p) => FirstStringIs(args, p); AddressIs(args, [], 0);
    case ExecP(p, _, _) => FirstStringIs(args, p); AddressIs(args, [], 0);
    case WriteF(fd, b) => LeadingIntIs(args, fd); FirstStringIs(args, b); AddressIs(args, [], 0);
    case ReadF(fd) => LeadingIntIs(args, fd); AddressIs(args, [], 0);
    case NetConn(host, port) => AddressIs(args, host, port);
  }

  /** Which call a body starts with, if any: no two of the names fit the same body. */
  lemma {:induction false} OneName(body: seq<byte>, args: seq<byte>)
    ensures Calls(body, OPENAT, args) || Calls(body, OPENAT2, args) ==> ParseCall(body) == Opened(args)
    ensures Calls(body, EXECVE, args) || Calls(body, EXECVEAT, args) ==> ParseCall(body) == Executed(args)
    ensures Calls(body, WRITE, args) ==> ParseCall(body) == Wrote(args)
    ensures Calls(body, READ, args) ==> ParseCall(body) == HasRead(args)
    ensures Calls(body, CONNECT, args) ==> ParseCall(body) == Connected(args)
  {
    hide ParseCall, Opened, Executed, Wrote, HasRead, Connected;
    OpenDispatch(args);
    ExecDispatch(args);
    IoDispatch(args);
  }

  lemma {:induction false} SomeName(body: seq<byte>) returns (args: seq<byte>)
    requires ParseCall(body).Some?
    ensures || Calls(body, OPENAT, args) || Calls(body, OPENAT2, args) || Calls(body, EXECVE, args)
            || Calls(body, EXECVEAT, args) || Calls(body, WRITE, args) || Calls(body, READ, args)
            || Calls(body, CONNECT, args)
  {
    hide Opened, Executed, Wrote, HasRead, Connected;
    var n := if OPENAT <= body || EXECVE <= body then 7 else if OPENAT2 <= body || CONNECT <= body then 8
             else if EXECVEAT <= body then 9 else if WRITE <= body then 6 else 5;
    args := body[n..];
    assert body == body[..n] + args;
  }

  lemma {:induction false} BodyIsExact(body: seq<byte>, e: Recorded)
    ensures ParseCall(body) == Some(e) <==> Denotes(body, e)
  {
    hide ParseCall, Opened, Executed, Wrote, HasRead, Connected, FirstString, LeadingInt, ShowsAddress, Calls;
    if ParseCall(body) == Some(e) {
      var args := SomeName(body);
      OneName(body, args);
      ArgsAre(args, e);
    }
    if Denotes(body, e) {
      var args := ArgsOf(body, e);
      OneName(body, args);
      ArgsAre(args, e);
    }
  }

  lemma {:induction false} ArgsOf(body: seq<byte>, e: Recorded) returns (args: seq<byte>)
    requires Denotes(body, e)
    ensures match e
            case OpenP(path) => (Calls(body, OPENAT, args) || Calls(body, OPENAT2, args)) && FirstString(args, path)
            case ExecP(path, argv, env) =>
              && argv == [] && env == []
              && (Calls(body, EXECVE, args) || Calls(body, EXECVEAT, args)) && FirstString(args, path)
            case WriteF(fd, b) => Calls(body, WRITE, args) && LeadingInt(args, fd) && FirstString(args, b)
            case ReadF(fd) => Calls(body, READ, args) && LeadingInt(args, fd)
            case NetConn(host, port) => Calls(body, CONNECT, args) && ShowsAddress(args, host, port)
  {
    hide FirstString, LeadingInt, ShowsAddress, Calls;
    match e
    case OpenP(path) =>
      args :| (Calls(body, OPENAT, args) || Calls(body, OPENAT2, args)) && FirstString(args, path);
    case ExecP(path, argv, env) =>
      args :| (Calls(body, EXECVE, args) || Calls(body, EXECVEAT, args)) && FirstString(args, path);
    case WriteF(fd, b) => args :| Calls(body, WRITE, args) && LeadingInt(args, fd) && FirstString(args, b);
    case ReadF(fd) => args :| Calls(body, READ, args) && LeadingInt(args, fd);
    case NetConn(host, port) => args :| Calls(body, CONNECT, args) && ShowsAddress(args, host, port);
  }

  /** A body that starts with none of the seven names is ignored; and one that does exactly if its quoted string,
      its leading number, or an address field is missing. */
  lemma {:induction false} IgnoredExactly(body: seq<byte>)
    ensures ParseCall(body).None? <==>
            && (forall args, b | Calls(body, OPENAT, args) || Calls(body, OPENAT2, args) :: !FirstString(args, b))
            && (forall args, b | Calls(body, EXECVE, args) || Calls(body, EXECVEAT, args) :: !FirstString(args, b))
            && (forall args, n, b | Calls(body, WRITE, args) :: !LeadingInt(args, n) || !FirstString(args, b))
            && (forall args, n | Calls(body, READ, args) :: !LeadingInt(args, n))
            && (forall args, host, port | Calls(body, CONNECT, args) :: !ShowsAddress(args, host, port))
  {
    hide ParseCall, FirstString, LeadingInt, ShowsAddress, Calls, Opened, Executed, Wrote, HasRead, Connected;
    if ParseCall(body).Some? {
      var e := ParseCall(body).value;
      BodyIsExact(body, e);
      var args := ArgsOf(body, e);
    } else {
      forall args, b
        ensures (Calls(body, OPENAT, args) || Calls(body, OPENAT2, args)) ==> !FirstString(args, b)
        ensures (Calls(body, EXECVE, args) || Calls(body, EXECVEAT, args)) ==> !FirstString(args, b)
      {
        NothingRead(body, args, 0, b);
      }
      forall args, n, b
        ensures Calls(body, WRITE, args) ==> !LeadingInt(args, n) || !FirstString(args, b)
      {
        NothingRead(body, args, n, b);
      }
      forall args, n
        ensures Calls(body, READ, args) ==> !LeadingInt(args, n)
      {
        NothingRead(body, args, n, []);
      }
      forall args, host, port
        ensures Calls(body, CONNECT, args) ==> !ShowsAddress(args, host, port)
      {
        OneName(body, args);
        ArgsAre(args, NetConn(host, port));
      }
    }
  }

  lemma {:induction false} NothingRead(body: seq<byte>, args: seq<byte>, n: int, b: seq<byte>)
    requires ParseCall(body).None?
    ensures Calls(body, OPENAT, args) || Calls(body, OPENAT2, args) ==> !FirstString(args, b)
    ensures Calls(body, EXECVE, args) || Calls(body, EXECVEAT, args) ==> !FirstString(args, b)
    ensures Calls(body, WRITE, args) ==> !LeadingInt(args, n) || !FirstString(args, b)
    ensures Calls(body, READ, args) ==> !LeadingInt(args, n)
  {
    hide ParseCall, FirstString, LeadingInt, ShowsAddress, Calls, Opened, Executed, Wrote, HasRead, Connected;
    OneName(body, args);
    ArgsAre(args, OpenP(b));
    ArgsAre(args, ExecP(b, [], []));
    ArgsAre(args, WriteF(n, b));
    ArgsAre(args, ReadF(n));
  }

  /** White space, and perhaps a bracketed process number and white space again. */
  ghost predicate Leads(l: Lead) {
    Spaces(l.space) && (l.Pid? ==> CLOSE_BRACKET !in l.inner && Spaces(l.after))
  }

  /** The effect a line records, if any. */
  ghost predicate Records(line: seq<byte>, e: Recorded) {
    exists l: Lead, body :: Leads(l) && line == LeadText(l) + body && Denotes(body, e)
  }

  /** Every line: it is taken for an effect exactly if it records that effect, and ignored if it records
      none. */
  lemma {:induction false} LineIsExact(line: seq<byte>, e: Recorded)
    ensures ParseLine(line) == Some(e) <==> Records(line, e)
  {
    hide ParseCall, StripPidPrefix, Denotes, LeadText;
    BodyIsExact(StripPidPrefix(line), e);
    if ParseLine(line) == Some(e) {
      var l := StripSplits(line);
      assert Denotes(StripPidPrefix(line), e);
    }
    if Records(line, e) {
      var l: Lead, body :| Leads(l) && line == LeadText(l) + body && Denotes(body, e);
      LeadsOk(l);
      BodyIsVisible(body, e);
      LeadIsStripped(l, body);
    }
  }

  lemma {:induction false} LeadsOk(l: Lead)
    ensures Leads(l) <==> LeadOk(l)
  {
    hide Spaces, Blank;
    BlankIsSpaces(l.space);
    if l.Pid? {
      BlankIsSpaces(l.after);
    }
  }

  lemma {:induction false} BodyIsVisible(body: seq<byte>, e: Recorded)
    requires Denotes(body, e)
    ensures body != [] && SpaceAt(body) == 0 && body[0] != OPEN_BRACKET
  {
    var args := ArgsOf(body, e);
    hide FirstString, LeadingInt, ShowsAddress, Denotes, SpaceAt, TrimStart;
    assert 97 <= body[0] <= 122;
    VisibleStart(body);
  }

  lemma {:induction false} StripSplits(line: seq<byte>) returns (l: Lead)
    ensures Leads(l) && line == LeadText(l) + StripPidPrefix(line)
  {
    hide TrimStart, Spaces, SpaceAt, First;
    var a := TrimStartSplits(line);
    var t := TrimStart(line);
    l := Bare(a);
    if t != [] && t[0] == OPEN_BRACKET && First([CLOSE_BRACKET], t[1..], 0).Some? {
      var u := t[1..];
      var i := First([CLOSE_BRACKET], u, 0).value;
      var after := TrimStartSplits(u[i + 1..]);
      BeforeFirst(u, i);
      l := Pid(a, u[..i], after);
      PidText(a, t, u[..i], after, TrimStart(u[i + 1..]));
    }
  }

  lemma {:induction false} PidText(a: seq<byte>, t: seq<byte>, inner: seq<byte>, after: seq<byte>, body: seq<byte>)
    requires t != [] && t[0] == OPEN_BRACKET && t[1..] == inner + [CLOSE_BRACKET] + (after + body)
    ensures a + t == LeadText(Pid(a, inner, after)) + body
  {
    assert t == [OPEN_BRACKET] + t[1..];
  }

  lemma {:induction false} BeforeFirst(u: seq<byte>, i: nat)
    requires First([CLOSE_BRACKET], u, 0) == Some(i)
    ensures i < |u| && u[i] == CLOSE_BRACKET && CLOSE_BRACKET !in u[..i] && u == u[..i] + [CLOSE_BRACKET] + u[i + 1..]
  {
    assert u[i..i + 1][0] == u[i];
    if k :| 0 <= k < i && u[..i][k] == CLOSE_BRACKET {
      assert Occurs([CLOSE_BRACKET], u, k);
    }
  }
}
