/** Strace lines as effects: the dispatch on the recorded call, and what the escape of its strings does to a
    search. */
module StraceLines {
  import opened Bytes
  import opened Text
  import opened Boundary
  import opened Strace
  import opened TraceCheck

  const COMMA: byte := 44
  const OPEN_BRACKET: byte := 91
  const CLOSE_BRACKET: byte := 93
  const CLOSE_PAREN: byte := 41
  const PLUS: byte := 43
  const MINUS: byte := 45

  const OPENAT: seq<byte> := [111, 112, 101, 110, 97, 116, 40] // openat(
  const OPENAT2: seq<byte> := [111, 112, 101, 110, 97, 116, 50, 40] // openat2(
  const EXECVE: seq<byte> := [101, 120, 101, 99, 118, 101, 40] // execve(
  const EXECVEAT: seq<byte> := [101, 120, 101, 99, 118, 101, 97, 116, 40] // execveat(
  const WRITE: seq<byte> := [119, 114, 105, 116, 101, 40] // write(
  const READ: seq<byte> := [114, 101, 97, 100, 40] // read(
  const CONNECT: seq<byte> := [99, 111, 110, 110, 101, 99, 116, 40] // connect(
  const INET_ADDR: seq<byte> := [105, 110, 101, 116, 95, 97, 100, 100, 114, 40, 34] // inet_addr("
  const HTONS: seq<byte> := [104, 116, 111, 110, 115, 40] // htons(

  // ---------------------------------------------------------------- trimming

  /** The width of the white-space character a UTF-8 text starts with, or zero. */
  function SpaceAt(s: seq<byte>): (w: nat)
    ensures w <= |s| && w <= 3
  {
    if s == [] then 0
    else if 9 <= s[0] <= 13 || s[0] == 32 then 1
    else if |s| >= 2 && s[0] == 0xC2 && (s[1] == 0x85 || s[1] == 0xA0) then 2
    else if |s| < 3 then 0
    else if s[0] == 0xE1 && s[1] == 0x9A && s[2] == 0x80 then 3
    else if s[0] == 0xE2 && s[1] == 0x80 && (0x80 <= s[2] <= 0x8A || s[2] == 0xA8 || s[2] == 0xA9 || s[2] == 0xAF) then 3
    else if s[0] == 0xE2 && s[1] == 0x81 && s[2] == 0x9F then 3
    else if s[0] == 0xE3 && s[1] == 0x80 && s[2] == 0x80 then 3
    else 0
  }

  function TrimStart(s: seq<byte>): seq<byte> {
    var w := SpaceAt(s);
    if w == 0 then s else TrimStart(s[w..])
  }

  /** The width of the white-space character a UTF-8 text ends with, or zero. */
  function SpaceBefore(s: seq<byte>): (w: nat)
    ensures w <= |s|
  {
    if |s| >= 1 && SpaceAt(s[|s| - 1..]) == 1 then 1
    else if |s| >= 2 && SpaceAt(s[|s| - 2..]) == 2 then 2
    else if |s| >= 3 && SpaceAt(s[|s| - 3..]) == 3 then 3
    else 0
  }

  function TrimEnd(s: seq<byte>): seq<byte> {
    var w := SpaceBefore(s);
    if w == 0 then s else TrimEnd(s[..|s| - w])
  }

  function StripPidPrefix(line: seq<byte>): seq<byte> {
    var t := TrimStart(line);
    if t == [] || t[0] != OPEN_BRACKET then t
    else match First([CLOSE_BRACKET], t[1..], 0)
      case None => t
      case Some(i) => TrimStart(t[1..][i + 1..])
  }

  // ---------------------------------------------------------------- numbers

  function ParseDigits(s: seq<byte>, acc: nat): Option<nat> {
    if s == [] then Some(acc)
    else if 48 <= s[0] <= 57 then ParseDigits(s[1..], 10 * acc + (s[0] - 48))
    else None
  }

  /** A signed decimal in range. */
  function ParseInt(s: seq<byte>, low: int, high: int): Option<int> {
    if s == [] then None
    else
      var negative := low < 0 && s[0] == MINUS;
      var digits := if negative || s[0] == PLUS then s[1..] else s;
      if digits == [] then None
      else match ParseDigits(digits, 0)
        case None => None
        case Some(v) =>
          var m: int := v;
          var n := if negative then -m else m;
          if low <= n <= high then Some(n) else None
  }

  predicate IsI32(n: int) {
    -0x8000_0000 <= n <= 0x7FFF_FFFF
  }

  function FirstTokenInt(args: seq<byte>): Option<int> {
    var token := match First([COMMA], args, 0) case None => args case Some(i) => args[..i];
    ParseInt(TrimEnd(TrimStart(token)), -0x8000_0000, 0x7FFF_FFFF)
  }

  // ---------------------------------------------------------------- the parser

  function FirstQuoted(args: seq<byte>): Option<seq<byte>> {
    var q := Quoted(args, 0);
    if q == [] then None else Some(q[0])
  }

  function Opened(args: seq<byte>): Option<Recorded> {
    match FirstQuoted(args) case None => None case Some(p) => Some(OpenP(p))
  }

  /** The arguments and the environment are never filled in. */
  function Executed(args: seq<byte>): Option<Recorded> {
    match FirstQuoted(args) case None => None case Some(p) => Some(ExecP(p, [], []))
  }

  function Wrote(args: seq<byte>): Option<Recorded> {
    match FirstTokenInt(args)
    case None => None
    case Some(fd) =>
      match FirstQuoted(args) case None => None case Some(b) => Some(WriteF(fd, b))
  }

  function HasRead(args: seq<byte>): Option<Recorded> {
    match FirstTokenInt(args) case None => None case Some(fd) => Some(ReadF(fd))
  }

  /** The text between a marker's first occurrence and the next `close`. */
  function Between(marker: seq<byte>, close: byte, args: seq<byte>): Option<seq<byte>> {
    match First(marker, args, 0)
    case None => None
    case Some(i) =>
      var s := args[i + |marker|..];
      match First([close], s, 0) case None => None case Some(end) => Some(s[..end])
  }

  function Connected(args: seq<byte>): Option<Recorded> {
    match Between(INET_ADDR, QUOTE, args)
    case None => None
    case Some(host) =>
      match Between(HTONS, CLOSE_PAREN, args)
      case None => None
      case Some(text) =>
        match ParseInt(text, 0, 0xFFFF) case None => None case Some(port) => Some(NetConn(host, port))
  }

  /** The calls that are recognised, in the order they are tried; every other line is ignored. */
  function ParseCall(body: seq<byte>): Option<Recorded> {
    if OPENAT <= body then Opened(body[|OPENAT|..])
    else if OPENAT2 <= body then Opened(body[|OPENAT2|..])
    else if EXECVE <= body then Executed(body[|EXECVE|..])
    else if EXECVEAT <= body then Executed(body[|EXECVEAT|..])
    else if WRITE <= body then Wrote(body[|WRITE|..])
    else if READ <= body then HasRead(body[|READ|..])
    else if CONNECT <= body then Connected(body[|CONNECT|..])
    else None
  }

  function ParseLine(line: seq<byte>): Option<Recorded> {
    ParseCall(StripPidPrefix(line))
  }

  function ParseStrace(lines: seq<seq<byte>>): seq<Recorded> {
    if lines == [] then []
    else (match ParseLine(lines[0]) case None => [] case Some(e) => [e]) + ParseStrace(lines[1..])
  }

  // ---------------------------------------------------------------- recorded lines

  /** What a line starts with: white space, and possibly a bracketed process number. */
  datatype Lead = Bare(space: seq<byte>) | Pid(space: seq<byte>, inner: seq<byte>, after: seq<byte>)

  predicate Blank(s: seq<byte>) {
    TrimStart(s) == []
  }

  predicate LeadOk(l: Lead) {
    Blank(l.space) && (l.Pid? ==> CLOSE_BRACKET !in l.inner && Blank(l.after))
  }

  function LeadText(l: Lead): seq<byte> {
    match l
    case Bare(space) => space
    case Pid(space, inner, after) => space + ([OPEN_BRACKET] + (inner + [CLOSE_BRACKET] + after))
  }

  /** A recorded call with what it really did. Only a first quoted string, a leading number, or the two
      address fields of a connection are fixed in its text; everything around them is arbitrary. */
  datatype Call =
    | CallOpen(two: bool, gap: seq<byte>, path: seq<byte>, rest: seq<byte>)
    | CallExec(at: bool, gap: seq<byte>, path: seq<byte>, args: seq<seq<byte>>, env: seq<(seq<byte>, seq<byte>)>,
               rest: seq<byte>)
    | CallWrite(fd: int, gap: seq<byte>, data: seq<byte>, rest: seq<byte>)
    | CallRead(fd: int, rest: seq<byte>)
    | CallConnect(text: seq<byte>, host: seq<byte>, port: nat)

  function Digits(n: nat): (s: seq<byte>)
    ensures s != [] && forall b <- s :: 48 <= b <= 57
  {
    if n < 10 then [48 + n] else Digits(n / 10) + [48 + n % 10]
  }

  function Decimal(n: int): seq<byte> {
    if n < 0 then [MINUS] + Digits(-n) else Digits(n)
  }

  /** A marker's first occurrence in `args` is followed by `content` and its closing byte. */
  predicate Shows(args: seq<byte>, marker: seq<byte>, content: seq<byte>, close: byte) {
    && close !in content
    && First(marker, args, 0).Some?
    && content + [close] <= args[First(marker, args, 0).value + |marker|..]
  }

  predicate CallOk(c: Call) {
    match c
    case CallOpen(_, gap, _, _) => QuoteFree(gap)
    case CallExec(_, gap, _, _, _, _) => QuoteFree(gap)
    case CallWrite(fd, gap, _, _) => IsI32(fd) && QuoteFree(gap)
    case CallRead(fd, _) => IsI32(fd)
    case CallConnect(args, host, port) =>
      port <= 0xFFFF && Shows(args, INET_ADDR, host, QUOTE) && Shows(args, HTONS, Digits(port), CLOSE_PAREN)
  }

  function InQuotes(gap: seq<byte>, b: seq<byte>, rest: seq<byte>): seq<byte> {
    gap + [QUOTE] + Escape(b) + [QUOTE] + rest
  }

  function CallText(c: Call): seq<byte> {
    match c
    case CallOpen(two, gap, path, rest) => (if two then OPENAT2 else OPENAT) + InQuotes(gap, path, rest)
    case CallExec(at, gap, path, _, _, rest) => (if at then EXECVEAT else EXECVE) + InQuotes(gap, path, rest)
    case CallWrite(fd, gap, data, rest) => WRITE + InQuotes(Decimal(fd) + [COMMA] + gap, data, rest)
    case CallRead(fd, rest) => READ + (Decimal(fd) + [COMMA] + rest)
    case CallConnect(text, _, _) => CONNECT + text
  }

  /** What the call did. */
  function Actual(c: Call): Recorded {
    match c
    case CallOpen(_, _, path, _) => OpenP(path)
    case CallExec(_, _, path, args, env, _) => ExecP(path, args, env)
    case CallWrite(fd, _, data, _) => WriteF(fd, data)
    case CallRead(fd, _) => ReadF(fd)
    case CallConnect(_, host, port) => NetConn(host, port)
  }

  /** What the parser makes of its line: byte strings stay escaped, arguments are lost. */
  function Seen(c: Call): Recorded {
    match c
    case CallOpen(_, _, path, _) => OpenP(Escape(path))
    case CallExec(_, _, path, _, _, _) => ExecP(Escape(path), [], [])
    case CallWrite(fd, _, data, _) => WriteF(fd, Escape(data))
    case _ => Actual(c)
  }

  // ---------------------------------------------------------------- a line is read as its call

  lemma {:induction false} TrimBlank(a: seq<byte>, s: seq<byte>)
    requires Blank(a)
    ensures TrimStart(a + s) == TrimStart(s)
    decreases |a|
  {
    if a == [] {
      assert a + s == s;
    } else {
      var w := SpaceAt(a);
      assert w > 0;
      assert SpaceAt(a + s) == w;
      assert (a + s)[w..] == a[w..] + s;
      TrimBlank(a[w..], s);
    }
  }

  lemma {:induction false} FindByte(a: seq<byte>, b: byte, s: seq<byte>)
    requires b !in a
    ensures First([b], a + [b] + s, 0) == Some(|a|)
  {
    var t := a + [b] + s;
    assert Occurs([b], t, |a|);
    assert forall k | 0 <= k < |a| :: t[k] == a[k];
    var i := First([b], t, 0).value;
    assert t[i] == t[i..i + 1][0] == b;
  }

  lemma {:induction false} LeadIsStripped(l: Lead, body: seq<byte>)
    requires LeadOk(l) && body != [] && SpaceAt(body) == 0 && body[0] != OPEN_BRACKET
    ensures StripPidPrefix(LeadText(l) + body) == body
  {
    hide SpaceAt;
    match l
    case Bare(space) => TrimBlank(space, body);
    case Pid(space, inner, after) =>
      var t := [OPEN_BRACKET] + (inner + [CLOSE_BRACKET] + (after + body));
      assert LeadText(l) + body == space + t;
      BracketIsNoSpace(t);
      TrimBlank(space, t);
      var u := t[1..];
      assert u == inner + [CLOSE_BRACKET] + (after + body);
      FindByte(inner, CLOSE_BRACKET, after + body);
      assert u[|inner| + 1..] == after + body;
      TrimBlank(after, body);
  }

  lemma {:induction false} BracketIsNoSpace(t: seq<byte>)
    requires t != [] && t[0] == OPEN_BRACKET
    ensures SpaceAt(t) == 0
  {
  }

  lemma {:induction false} DigitsParse(n: nat, s: seq<byte>)
    ensures ParseDigits(Digits(n) + s, 0) == ParseDigits(s, n)
  {
    if n < 10 {
      assert (Digits(n) + s)[1..] == s;
    } else {
      var t := [48 + n % 10] + s;
      assert Digits(n) + s == Digits(n / 10) + t;
      DigitsParse(n / 10, t);
      assert t[1..] == s && 10 * (n / 10) + n % 10 == n;
    }
  }

  lemma {:induction false} DecimalParses(n: int, low: int, high: int)
    requires low <= n <= high && (n < 0 ==> low < 0)
    ensures ParseInt(Decimal(n), low, high) == Some(n)
  {
    hide ParseDigits, Digits;
    var m: nat := if n < 0 then -n else n;
    DigitsParse(m, []);
    assert Digits(m) + [] == Digits(m);
    NoDigitsLeft(m);
    assert n < 0 ==> Decimal(n)[1..] == Digits(m);
    assert Digits(m)[0] in Digits(m);
  }

  lemma {:induction false} NoDigitsLeft(n: nat)
    ensures ParseDigits([], n) == Some(n)
  {
  }

  lemma {:induction false} VisibleIsNoSpace(t: seq<byte>)
    requires t != [] && 32 < t[|t| - 1] < 127
    ensures SpaceAt(t) != |t|
    ensures 32 < t[0] < 127 ==> SpaceAt(t) == 0
  {
  }

  lemma {:induction false} NoSpaceBefore(s: seq<byte>)
    requires s != [] && 32 < s[|s| - 1] < 127
    ensures SpaceBefore(s) == 0
  {
    hide SpaceAt;
    NoSpaceTail(s, 1);
    if |s| >= 2 {
      NoSpaceTail(s, 2);
    }
    if |s| >= 3 {
      NoSpaceTail(s, 3);
    }
  }

  lemma {:induction false} NoSpaceTail(s: seq<byte>, k: nat)
    requires 0 < k <= |s| && 32 < s[|s| - 1] < 127
    ensures SpaceAt(s[|s| - k..]) != k
  {
    hide SpaceAt;
    var t := s[|s| - k..];
    assert |t| == k && t[k - 1] == s[|s| - 1];
    VisibleIsNoSpace(t);
  }

  lemma {:induction false} TrimStops(s: seq<byte>)
    ensures SpaceAt(s) == 0 ==> TrimStart(s) == s
    ensures SpaceBefore(s) == 0 ==> TrimEnd(s) == s
  {
    hide SpaceAt, SpaceBefore;
  }

  /** A text that starts and ends with visible ASCII has nothing to trim. */
  lemma {:induction false} NothingToTrim(s: seq<byte>)
    requires s != [] && 32 < s[0] < 127 && 32 < s[|s| - 1] < 127
    ensures TrimEnd(TrimStart(s)) == s
  {
    hide SpaceAt, SpaceBefore, TrimStart, TrimEnd;
    VisibleIsNoSpace(s);
    NoSpaceBefore(s);
    TrimStops(s);
  }

  lemma {:induction false} DecimalIsTrim(n: int)
    ensures var d := Decimal(n);
            && d != [] && TrimEnd(TrimStart(d)) == d
            && COMMA !in d && QUOTE !in d && CLOSE_PAREN !in d
  {
    hide Digits, TrimStart, TrimEnd;
    var d := Decimal(n);
    var m: nat := if n < 0 then -n else n;
    var ds := Digits(m);
    assert ds[0] in ds && ds[|ds| - 1] in ds;
    assert d[|d| - 1] == ds[|ds| - 1];
    NothingToTrim(d);
  }

  lemma {:induction false} TokenParses(fd: int, s: seq<byte>)
    requires IsI32(fd)
    ensures FirstTokenInt(Decimal(fd) + [COMMA] + s) == Some(fd)
  {
    hide TrimStart, TrimEnd, ParseInt, Decimal;
    DecimalIsTrim(fd);
    FindByte(Decimal(fd), COMMA, s);
    assert (Decimal(fd) + [COMMA] + s)[..|Decimal(fd)|] == Decimal(fd);
    DecimalParses(fd, -0x8000_0000, 0x7FFF_FFFF);
  }

  lemma {:induction false} QuotedParses(gap: seq<byte>, b: seq<byte>, rest: seq<byte>)
    requires QuoteFree(gap)
    ensures FirstQuoted(InQuotes(gap, b, rest)) == Some(Escape(b))
  {
    hide Quoted, Escape;
    EscapeRoundTrip(b);
    OneQuoted(gap, Escape(b), rest);
  }

  lemma {:induction false} BetweenShows(args: seq<byte>, marker: seq<byte>, content: seq<byte>, close: byte)
    requires Shows(args, marker, content, close)
    ensures Between(marker, close, args) == Some(content)
  {
    var s := args[First(marker, args, 0).value + |marker|..];
    var tail := s[|content| + 1..];
    assert s == content + [close] + tail;
    FindByte(content, close, tail);
    assert s[..|content|] == content;
  }

  lemma {:induction false} ConnectParses(args: seq<byte>, host: seq<byte>, port: nat)
    requires CallOk(CallConnect(args, host, port))
    ensures Connected(args) == Some(NetConn(host, port))
  {
    hide Between, Shows, ParseInt, Digits;
    BetweenShows(args, INET_ADDR, host, QUOTE);
    BetweenShows(args, HTONS, Digits(port), CLOSE_PAREN);
    DecimalParses(port, 0, 0xFFFF);
  }

  lemma {:induction false} Strips(name: seq<byte>, s: seq<byte>)
    ensures name <= name + s && (name + s)[|name|..] == s
  {
  }

  lemma {:induction false} Clash(name: seq<byte>, s: seq<byte>, other: seq<byte>, k: nat)
    requires k < |name| && k < |other| && name[k] != other[k]
    ensures !(other <= name + s)
  {
    assert (name + s)[k] == name[k];
  }

  lemma {:induction false} OpenDispatch(s: seq<byte>)
    ensures ParseCall(OPENAT + s) == Opened(s) && ParseCall(OPENAT2 + s) == Opened(s)
  {
    hide Opened, Executed, Wrote, HasRead, Connected;
    Strips(OPENAT, s);
    Strips(OPENAT2, s);
    Clash(OPENAT2, s, OPENAT, 6);
  }

  lemma {:induction false} ExecDispatch(s: seq<byte>)
    ensures ParseCall(EXECVE + s) == Executed(s) && ParseCall(EXECVEAT + s) == Executed(s)
  {
    hide Opened, Executed, Wrote, HasRead, Connected;
    NotOpen(EXECVE, s);
    Strips(EXECVE, s);
    NotOpen(EXECVEAT, s);
    Clash(EXECVEAT, s, EXECVE, 6);
    Strips(EXECVEAT, s);
  }

  lemma {:induction false} NotOpen(name: seq<byte>, s: seq<byte>)
    requires name != [] && name[0] != OPENAT[0]
    ensures !(OPENAT <= name + s) && !(OPENAT2 <= name + s)
  {
    Clash(name, s, OPENAT, 0);
    Clash(name, s, OPENAT2, 0);
  }

  lemma {:induction false} NotExec(name: seq<byte>, s: seq<byte>)
    requires name != [] && name[0] != EXECVE[0]
    ensures !(EXECVE <= name + s) && !(EXECVEAT <= name + s)
  {
    Clash(name, s, EXECVE, 0);
    Clash(name, s, EXECVEAT, 0);
  }

  lemma {:induction false} IoDispatch(s: seq<byte>)
    ensures ParseCall(WRITE + s) == Wrote(s) && ParseCall(READ + s) == HasRead(s)
    ensures ParseCall(CONNECT + s) == Connected(s)
  {
    hide Opened, Executed, Wrote, HasRead, Connected;
    forall name <- {WRITE, READ, CONNECT}
      ensures !(OPENAT <= name + s) && !(OPENAT2 <= name + s) && !(EXECVE <= name + s) && !(EXECVEAT <= name + s)
      ensures name <= name + s && (name + s)[|name|..] == s
    {
      NotOpen(name, s);
      NotExec(name, s);
      Strips(name, s);
    }
    Clash(READ, s, WRITE, 0);
    Clash(CONNECT, s, WRITE, 0);
    Clash(CONNECT, s, READ, 0);
  }

  lemma {:induction false} NamesAreBare(c: Call)
    ensures CallText(c) != [] && SpaceAt(CallText(c)) == 0 && CallText(c)[0] != OPEN_BRACKET
  {
    hide InQuotes, Decimal;
  }

  /** Whatever surrounds them, a recorded call's line is read back as the call, its byte strings still
      escaped, and without the arguments of an execution. */
  lemma {:induction false} LineRoundTrip(l: Lead, c: Call)
    requires LeadOk(l) && CallOk(c)
    ensures ParseLine(LeadText(l) + CallText(c)) == Some(Seen(c))
  {
    hide StripPidPrefix, LeadText, LeadOk, SpaceAt, FirstTokenInt, FirstQuoted, Connected, ParseCall, Shows, InQuotes,
         Decimal, Escape;
    NamesAreBare(c);
    LeadIsStripped(l, CallText(c));
    match c
    case CallOpen(two, gap, path, rest) =>
      OpenDispatch(InQuotes(gap, path, rest));
      QuotedParses(gap, path, rest);
    case CallExec(_, gap, path, _, _, rest) =>
      ExecDispatch(InQuotes(gap, path, rest));
      QuotedParses(gap, path, rest);
    case CallWrite(fd, gap, data, rest) =>
      var before := Decimal(fd) + [COMMA] + gap;
      IoDispatch(InQuotes(before, data, rest));
      DecimalIsTrim(fd);
      QuotedParses(before, data, rest);
      WriteSplits(fd, gap, data, rest);
    case CallRead(fd, rest) =>
      IoDispatch(Decimal(fd) + [COMMA] + rest);
      TokenParses(fd, rest);
    case CallConnect(args, host, port) =>
      IoDispatch(args);
      ConnectParses(args, host, port);
  }

  lemma {:induction false} WriteSplits(fd: int, gap: seq<byte>, data: seq<byte>, rest: seq<byte>)
    requires IsI32(fd)
    ensures FirstTokenInt(InQuotes(Decimal(fd) + [COMMA] + gap, data, rest)) == Some(fd)
  {
    hide FirstTokenInt, Decimal, Escape;
    var s := gap + [QUOTE] + Escape(data) + [QUOTE] + rest;
    assert InQuotes(Decimal(fd) + [COMMA] + gap, data, rest) == Decimal(fd) + [COMMA] + s;
    TokenParses(fd, s);
  }

  // ---------------------------------------------------------------- searching escaped text

  predicate Special(b: byte) {
    b == QUOTE || b == BACKSLASH
  }

  predicate Unescaped(s: seq<byte>) {
    forall b <- s :: !Special(b)
  }

  /** The texts that the escape neither hides nor makes up: special at most in the first character, and not a
      lone backslash. */
  predicate Survives(p: seq<byte>) {
    p == [] || (Unescaped(p[1..]) && p != [BACKSLASH])
  }

  /** The escape of one character; its last character is the character itself. */
  function Unit(b: byte): (e: seq<byte>)
    ensures 1 <= |e| <= 2 && e[|e| - 1] == b && (|e| == 2 <==> Special(b)) && (|e| == 2 ==> e[0] == BACKSLASH)
  {
    if Special(b) then [BACKSLASH, b] else [b]
  }

  lemma {:induction false} EscapeUnits(b: seq<byte>)
    requires b != []
    ensures Escape(b) == Unit(b[0]) + Escape(b[1..])
  {
  }

  lemma {:induction false} PrefixOfEscape(b: seq<byte>, p: seq<byte>)
    requires Unescaped(p)
    ensures p <= Escape(b) <==> p <= b
  {
    if p != [] && b != [] {
      EscapeUnits(b);
      hide Escape;
      var e := Escape(b[1..]);
      assert p[0] in p && forall x <- p[1..] :: x in p;
      assert p == [p[0]] + p[1..] && b == [b[0]] + b[1..];
      if !Special(b[0]) {
        PrefixOfEscape(b[1..], p[1..]);
        assert p <= [b[0]] + e <==> p[0] == b[0] && p[1..] <= e;
        assert p <= b <==> p[0] == b[0] && p[1..] <= b[1..];
      } else {
        assert (Unit(b[0]) + e)[0] == BACKSLASH;
      }
    }
  }

  lemma {:induction false} OccursIsPrefix(p: seq<byte>, s: seq<byte>, i: nat)
    ensures Occurs(p, s, i) <==> i <= |s| && p <= s[i..]
  {
    if i + |p| <= |s| {
      assert s[i..][..|p|] == s[i..i + |p|];
    }
  }

  lemma {:induction false} OccursLater(p: seq<byte>, s: seq<byte>, d: nat, i: nat)
    requires d <= i && d <= |s|
    ensures Occurs(p, s, i) <==> Occurs(p, s[d..], i - d)
  {
    if i + |p| <= |s| {
      assert s[d..][i - d..i - d + |p|] == s[i..i + |p|];
    }
  }

  /** An occurrence in escaped text starts with a character's escape, or with the second half of one. */
  ghost predicate Aligned(b: seq<byte>, p: seq<byte>, k: nat) {
    && k < |b| && p != []
    && (p <= Escape(b[k..]) || (Special(b[k]) && p[0] == b[k] && p[1..] <= Escape(b[k + 1..])))
  }

  lemma {:induction false} OccurrenceAligns(b: seq<byte>, p: seq<byte>, i: nat) returns (k: nat)
    requires p != [] && Occurs(p, Escape(b), i)
    ensures Aligned(b, p, k)
  {
    var e := Escape(b);
    OccursIsPrefix(p, e, i);
    EscapeUnits(b);
    hide Escape, Occurs;
    var n := |Unit(b[0])|;
    assert b[0..] == b && e[0..] == e && e[n..] == Escape(b[1..]);
    if i == 0 {
      k := 0;
    } else if i < n {
      k := 0;
      HalfUnit(b, p);
    } else {
      OccursLater(p, e, n, i);
      k := OccurrenceAligns(b[1..], p, i - n);
      assert b[1..][k..] == b[k + 1..] && b[1..][k + 1..] == b[k + 2..];
      k := k + 1;
    }
  }

  lemma {:induction false} HalfUnit(b: seq<byte>, p: seq<byte>)
    requires b != [] && p != [] && Special(b[0]) && p <= Escape(b)[1..]
    ensures p[0] == b[0] && p[1..] <= Escape(b[1..])
  {
    EscapeUnits(b);
    hide Escape, Unit;
    UnitTail(Unit(b[0]), Escape(b[1..]));
    HeadPrefix(p, [b[0]] + Escape(b[1..]));
  }

  lemma {:induction false} UnitTail(u: seq<byte>, r: seq<byte>)
    requires u != []
    ensures (u + r)[|u| - 1..] == [u[|u| - 1]] + r
    ensures ([u[|u| - 1]] + r)[1..] == r
  {
  }

  lemma {:induction false} HeadPrefix(p: seq<byte>, s: seq<byte>)
    requires p != [] && s != []
    ensures p <= s <==> p[0] == s[0] && p[1..] <= s[1..]
  {
    assert p == [p[0]] + p[1..] && s == [s[0]] + s[1..];
  }

  lemma {:induction false} DropTwice(s: seq<byte>, i: nat, j: nat)
    requires i + j <= |s|
    ensures s[i..][j..] == s[i + j..]
  {
  }

  /** Where the escape of the rest of a text is found in the escape of the text. */
  lemma {:induction false} EscapeOfRest(b: seq<byte>, k: nat) returns (j: nat)
    requires k <= |b|
    ensures j <= |Escape(b)| && Escape(b)[j..] == Escape(b[k..])
  {
    if k == 0 {
      j := 0;
      assert b[0..] == b;
    } else {
      EscapeUnits(b);
      hide Escape;
      j := EscapeOfRest(b[1..], k - 1);
      assert b[1..][k - 1..] == b[k..];
      j := j + |Unit(b[0])|;
    }
  }

  /** A surviving text found in the escape is there in the original. */
  lemma {:induction false} FoundInEscape(b: seq<byte>, p: seq<byte>, i: nat) returns (k: nat)
    requires Survives(p) && p != [] && Occurs(p, Escape(b), i)
    ensures Occurs(p, b, k)
  {
    hide Escape, Occurs;
    k := OccurrenceAligns(b, p, i);
    var c := b[k..];
    EscapeUnits(c);
    assert c[1..] == b[k + 1..] && c == [c[0]] + c[1..] && p == [p[0]] + p[1..];
    if p <= Escape(c) {
      WholeUnit(c, p);
    } else {
      PrefixOfEscape(c[1..], p[1..]);
    }
    assert p <= c;
    OccursIsPrefix(p, b, k);
  }

  lemma {:induction false} WholeUnit(c: seq<byte>, p: seq<byte>)
    requires c != [] && p != [] && Survives(p) && p <= Escape(c)
    ensures p <= c
  {
    EscapeUnits(c);
    hide Escape;
    var e := Unit(c[0]) + Escape(c[1..]);
    assert p[0] == e[0];
    assert |p| > 1 ==> p[1] == e[1] && p[1..][0] == p[1];
    if !Special(c[0]) {
      assert Unescaped(p) by {
        assert p == [p[0]] + p[1..];
      }
      PrefixOfEscape(c, p);
    }
  }

  /** A surviving text found in the original is there in the escape. */
  lemma {:induction false} FoundAfterEscape(b: seq<byte>, p: seq<byte>, k: nat) returns (j: nat)
    requires Survives(p) && p != [] && Occurs(p, b, k)
    ensures Occurs(p, Escape(b), j)
  {
    hide Escape, Occurs, Survives;
    OccursIsPrefix(p, b, k);
    var c := b[k..];
    j := EscapeOfRest(b, k);
    var d := AfterUnit(c, p);
    DropTwice(Escape(b), j, d);
    OccursIsPrefix(p, Escape(b), j + d);
    j := j + d;
  }

  lemma {:induction false} AfterUnit(c: seq<byte>, p: seq<byte>) returns (d: nat)
    requires p != [] && Survives(p) && p <= c
    ensures d <= |Escape(c)| && p <= Escape(c)[d..]
  {
    EscapeUnits(c);
    hide Escape, Unit;
    var u, r := Unit(c[0]), Escape(c[1..]);
    d := |u| - 1;
    UnitTail(u, r);
    HeadPrefix(p, c);
    PrefixOfEscape(c[1..], p[1..]);
    HeadPrefix(p, [c[0]] + r);
  }

  lemma {:induction false} SearchIs(s: seq<byte>, p: seq<byte>, i: nat)
    ensures p != [] && Occurs(p, s, i) ==> ContainsSubsequence(s, p)
  {
    if p != [] && Occurs(p, s, i) {
      assert 0 <= i <= |s| - |p|;
    }
  }

  lemma {:induction false} EscapeKeeps(b: seq<byte>, p: seq<byte>)
    requires Survives(p)
    ensures ContainsSubsequence(Escape(b), p) <==> ContainsSubsequence(b, p)
  {
    hide Escape, Occurs;
    if p != [] {
      if i :| 0 <= i <= |Escape(b)| - |p| && Occurs(p, Escape(b), i) {
        var k := FoundInEscape(b, p, i);
        SearchIs(b, p, k);
      }
      if i :| 0 <= i <= |b| - |p| && Occurs(p, b, i) {
        var k := FoundAfterEscape(b, p, i);
        SearchIs(Escape(b), p, k);
      }
    }
  }

  /** A shortest text whose escape starts with `p`, if there is one. */
  function Unescapes(p: seq<byte>): Option<seq<byte>> {
    if p == [] then Some([])
    else if p[0] == QUOTE then None
    else if p[0] != BACKSLASH then
      match Unescapes(p[1..]) case None => None case Some(b) => Some([p[0]] + b)
    else if |p| == 1 then Some([QUOTE])
    else if !Special(p[1]) then None
    else match Unescapes(p[2..]) case None => None case Some(b) => Some([p[1]] + b)
  }

  lemma {:induction false} UnescapesIs(p: seq<byte>)
    requires Unescapes(p).Some?
    ensures var b := Unescapes(p).value;
            p <= Escape(b) && |b| <= |p| && (b == p ==> Unescaped(p)) && (p != [] ==> b != [])
    decreases |p|
  {
    if p != [] {
      var b := Unescapes(p).value;
      EscapeUnits(b);
      if p[0] != BACKSLASH {
        UnescapesIs(p[1..]);
        assert b[1..] == Unescapes(p[1..]).value;
        assert p == [p[0]] + p[1..];
      } else if |p| > 1 {
        UnescapesIs(p[2..]);
        assert b[1..] == Unescapes(p[2..]).value;
        assert p == [p[0], p[1]] + p[2..];
      }
    }
  }

  lemma {:induction false} UnescapesExists(p: seq<byte>, b: seq<byte>)
    requires p <= Escape(b)
    ensures Unescapes(p).Some?
    decreases |p|
  {
    if p != [] {
      EscapeUnits(b);
      hide Escape;
      var e := Unit(b[0]) + Escape(b[1..]);
      assert p[0] == e[0];
      if |p| > 1 {
        assert p[1] == e[1];
        var n := |Unit(b[0])|;
        assert e[n..] == Escape(b[1..]) && p[n..] <= e[n..];
        UnescapesExists(p[n..], b[1..]);
      }
    }
  }

  /** A text that does not survive gives the escape away: some text has it and loses it, or gains it. */
  lemma {:induction false} EscapeChanges(p: seq<byte>) returns (b: seq<byte>)
    requires !Survives(p)
    ensures ContainsSubsequence(Escape(b), p) != ContainsSubsequence(b, p)
  {
    hide Escape, Occurs;
    var whole := Unescapes(p);
    var half := if Special(p[0]) then Unescapes(p[1..]) else None;
    if whole.Some? {
      b := whole.value;
      UnescapesIs(p);
      assert Escape(b)[0..] == Escape(b);
      OccursIsPrefix(p, Escape(b), 0);
      SearchIs(Escape(b), p, 0);
      TooShort(b, p);
    } else if half.Some? {
      b := [p[0]] + half.value;
      HalfWitness(p, half.value);
      TooShort(b, p);
    } else {
      b := p;
      assert p[0..] == p;
      OccursIsPrefix(p, p, 0);
      SearchIs(p, p, 0);
      NotInEscapes(p);
    }
  }

  /** A text no longer than the one sought, and different. */
  lemma {:induction false} TooShort(b: seq<byte>, p: seq<byte>)
    requires |b| <= |p| && b != p
    ensures !ContainsSubsequence(b, p)
  {
    assert b[0..|b|] == b;
  }

  lemma {:induction false} HalfWitness(p: seq<byte>, d: seq<byte>)
    requires p != [] && Special(p[0]) && Unescapes(p[1..]) == Some(d) && !Survives(p) && Unescapes(p).None?
    ensures var b := [p[0]] + d;
            |b| <= |p| && b != p && ContainsSubsequence(Escape(b), p)
  {
    UnescapesIs(p[1..]);
    var b := [p[0]] + d;
    EscapeUnits(b);
    hide Escape, Occurs, Unit, ContainsSubsequence;
    assert b[1..] == d && b[0] == p[0];
    UnitTail(Unit(p[0]), Escape(d));
    HeadPrefix(p, [p[0]] + Escape(d));
    OccursIsPrefix(p, Escape(b), 1);
    SearchIs(Escape(b), p, 1);
  }

  lemma {:induction false} NotInEscapes(p: seq<byte>)
    requires p != [] && Unescapes(p).None? && (Special(p[0]) ==> Unescapes(p[1..]).None?)
    ensures forall b :: !ContainsSubsequence(Escape(b), p)
  {
    hide Escape, Occurs;
    forall b
      ensures !ContainsSubsequence(Escape(b), p)
    {
      if i :| 0 <= i <= |Escape(b)| - |p| && Occurs(p, Escape(b), i) {
        var k := OccurrenceAligns(b, p, i);
        if p <= Escape(b[k..]) {
          UnescapesExists(p, b[k..]);
        } else {
          UnescapesExists(p[1..], b[k + 1..]);
        }
      }
    }
  }

  /** Exactly which canaries the escape neither hides nor makes up, in any text. */
  lemma {:induction false} EscapeKeepsCanaries(canary: seq<byte>)
    ensures Survives(canary)
       <==> forall b :: ContainsSubsequence(Escape(b), canary) <==> ContainsSubsequence(b, canary)
  {
    hide Escape, ContainsSubsequence, Survives;
    if Survives(canary) {
      forall b
        ensures ContainsSubsequence(Escape(b), canary) <==> ContainsSubsequence(b, canary)
      {
        EscapeKeeps(b, canary);
      }
    } else {
      var b := EscapeChanges(canary);
    }
  }
}
