/** The hash-chained, signed audit log: its writers, its verifier, and what acceptance proves. */
module Audit {
  import opened Bytes
  import opened TextLines

  datatype Body = Body(timestamp: string, event: string, fields: map<string, string>, prev: string)

  datatype Record = Record(
    timestamp: string, event: string, fields: map<string, string>,
    prev: string, hash: string, signature: string)

  type Key = seq<byte>

  /** Hashing, signing and JSON, as functions. `hash` includes the hexadecimal rendering. */
  datatype Crypto = Crypto(
    encodeBody: Body -> seq<byte>,
    hash: seq<byte> -> string,
    sign: (Key, seq<byte>) -> seq<byte>,
    verify: (Key, seq<byte>, seq<byte>) -> bool,
    hex: seq<byte> -> string,
    unhex: string -> Option<seq<byte>>,
    encodeRecord: Record -> string,
    decodeRecord: string -> Option<Record>)
  {
    /** Distinct bodies have distinct encodings. Nothing is assumed of the hash. */
    ghost predicate Injective() {
      forall a, b :: encodeBody(a) == encodeBody(b) ==> a == b
    }

    /** Signatures made with `sk` verify under `pk`; records are one line of text and decode to
        themselves. */
    ghost predicate Lawful(sk: Key, pk: Key) {
      && (forall b :: verify(pk, b, sign(sk, b)))
      && (forall b :: unhex(hex(b)) == Some(b))
      && (forall r :: decodeRecord(encodeRecord(r)) == Some(r) && OneLine(encodeRecord(r)))
    }
  }

  function Repeat(c: char, n: nat): (s: string)
    ensures |s| == n && forall x <- s :: x == c
  {
    if n == 0 then "" else [c] + Repeat(c, n - 1)
  }

  const GENESIS: string := Repeat('0', 64)

  function BodyOf(r: Record): Body {
    Body(r.timestamp, r.event, r.fields, r.prev)
  }

  // ---------------------------------------------------------------- the verifier

  datatype VerifyError =
    | ChainBreak(i: nat) | HashMismatch(i: nat) | BadSig(i: nat) | IoError | ParseError

  /** The checks on one line, in the code's order. Returns the next expected predecessor. */
  function Check(c: Crypto, pk: Key, line: string, i: nat, prev: string): Result<string, VerifyError> {
    match c.decodeRecord(line)
    case None => Err(ParseError)
    case Some(r) =>
      if r.prev != prev then Err(ChainBreak(i)) else
      var body := c.encodeBody(Body(r.timestamp, r.event, r.fields, prev));
      if c.hash(body) != r.hash then Err(HashMismatch(i)) else
      match c.unhex(r.signature)
      case None => Err(BadSig(i))
      case Some(sig) => if c.verify(pk, body, sig) then Ok(r.hash) else Err(BadSig(i))
  }

  function VerifyFrom(c: Crypto, pk: Key, lines: seq<string>, i: nat, prev: string): Result<string, VerifyError>
    decreases |lines|
  {
    if lines == [] then Ok(prev)
    else match Check(c, pk, lines[0], i, prev)
      case Err(e) => Err(e)
      case Ok(hash) => VerifyFrom(c, pk, lines[1..], i + 1, hash)
  }

  function Verify(c: Crypto, pk: Key, content: string): Result<string, VerifyError> {
    VerifyFrom(c, pk, Lines(content), 0, GENESIS)
  }

  /** The first failure decides: a line is looked at only after all before it have passed. */
  lemma {:induction false} VerifyLast(c: Crypto, pk: Key, lines: seq<string>, line: string, i: nat, prev: string)
    ensures VerifyFrom(c, pk, lines + [line], i, prev)
         == match VerifyFrom(c, pk, lines, i, prev)
            case Err(e) => Err(e)
            case Ok(tip) => Check(c, pk, line, i + |lines|, tip)
    decreases |lines|
  {
    hide Check;
    if lines == [] {
      assert lines + [line] == [line];
    } else {
      assert (lines + [line])[1..] == lines[1..] + [line];
      var h := Check(c, pk, lines[0], i, prev);
      if h.Ok? {
        VerifyLast(c, pk, lines[1..], line, i + 1, h.value);
      }
    }
  }

  // ---------------------------------------------------------------- what the verifier's answer means

  /** The hash the line after the first `k` has to name: the sentinel, then the one the line before it carries. */
  function Due(c: Crypto, lines: seq<string>, k: nat): string
    requires k <= |lines|
  {
    if k == 0 then GENESIS
    else match c.decodeRecord(lines[k - 1])
      case None => ""
      case Some(r) => r.hash
  }

  predicate HashesBody(c: Crypto, r: Record) {
    r.hash == c.hash(c.encodeBody(BodyOf(r)))
  }

  predicate Signed(c: Crypto, pk: Key, r: Record) {
    c.unhex(r.signature).Some? && c.verify(pk, c.encodeBody(BodyOf(r)), c.unhex(r.signature).value)
  }

  /** A line decodes, names the hash due, carries the hash of its own body, and is signed over it. */
  predicate Sound(c: Crypto, pk: Key, line: string, due: string) {
    match c.decodeRecord(line)
    case None => false
    case Some(r) => r.prev == due && HashesBody(c, r) && Signed(c, pk, r)
  }

  /** The error that names the first of these that fails, and the line's number. */
  predicate Blames(c: Crypto, pk: Key, line: string, due: string, k: nat, e: VerifyError) {
    match c.decodeRecord(line)
    case None => e == ParseError
    case Some(r) =>
      && (r.prev != due ==> e == ChainBreak(k))
      && (r.prev == due && !HashesBody(c, r) ==> e == HashMismatch(k))
      && (r.prev == due && HashesBody(c, r) ==> !Signed(c, pk, r) && e == BadSig(k))
  }

  ghost predicate SoundUpTo(c: Crypto, pk: Key, lines: seq<string>, k: nat)
    requires k <= |lines|
  {
    forall j: nat | j < k :: Sound(c, pk, lines[j], Due(c, lines, j))
  }

  /** Any text at all: it is accepted exactly if every line is sound, with the last hash for its tip; and it is
      refused for the first check that its first unsound line fails. The sentinel is sixty-four zeros. */
  lemma {:induction false} VerifyIsExact(c: Crypto, pk: Key, text: string)
    ensures |GENESIS| == 64 && forall x <- GENESIS :: x == '0'
    ensures var (r, lines) := (Verify(c, pk, text), Lines(text));
            && (r.Ok? <==> SoundUpTo(c, pk, lines, |lines|))
            && (r.Ok? ==> r.value == Due(c, lines, |lines|))
            && (r.Err? ==> exists k: nat :: k < |lines| && SoundUpTo(c, pk, lines, k)
                             && !Sound(c, pk, lines[k], Due(c, lines, k))
                             && Blames(c, pk, lines[k], Due(c, lines, k), k, r.error))
  {
    hide Sound, Blames, Due, Lines;
    LinesAreExact(c, pk, Lines(text));
  }

  lemma {:induction false} LinesAreExact(c: Crypto, pk: Key, lines: seq<string>)
    ensures var r := VerifyFrom(c, pk, lines, 0, GENESIS);
            && (r.Ok? <==> SoundUpTo(c, pk, lines, |lines|))
            && (r.Ok? ==> r.value == Due(c, lines, |lines|))
            && (r.Err? ==> exists k: nat :: k < |lines| && SoundUpTo(c, pk, lines, k)
                             && !Sound(c, pk, lines[k], Due(c, lines, k))
                             && Blames(c, pk, lines[k], Due(c, lines, k), k, r.error))
    decreases |lines|
  {
    hide Repeat, Sound, Blames, Due, Check;
    if lines == [] {
      NothingDue(c);
    } else {
      var n := |lines| - 1;
      var front, last := lines[..n], lines[n];
      assert lines == front + [last];
      LinesAreExact(c, pk, front);
      VerifyLast(c, pk, front, last, 0, GENESIS);
      forall j: nat | j <= n
        ensures Due(c, front, j) == Due(c, lines, j)
      {
        DueOfFront(c, lines, n, j);
      }
      assert forall j: nat | j <= n :: SoundUpTo(c, pk, front, j) <==> SoundUpTo(c, pk, lines, j);
      if VerifyFrom(c, pk, front, 0, GENESIS).Ok? {
        CheckIsExact(c, pk, last, n, Due(c, lines, n));
        DueAfter(c, pk, lines, n);
      } else {
        var e := VerifyFrom(c, pk, front, 0, GENESIS).error;
        var k: nat :| k < n && SoundUpTo(c, pk, front, k) && !Sound(c, pk, front[k], Due(c, front, k))
                      && Blames(c, pk, front[k], Due(c, front, k), k, e);
        assert front[k] == lines[k] && Due(c, front, k) == Due(c, lines, k);
      }
    }
  }

  lemma {:induction false} NothingDue(c: Crypto)
    ensures Due(c, [], 0) == GENESIS
  {
  }

  lemma {:induction false} DueOfFront(c: Crypto, lines: seq<string>, n: nat, j: nat)
    requires j <= n <= |lines|
    ensures Due(c, lines[..n], j) == Due(c, lines, j)
  {
  }

  lemma {:induction false} DueAfter(c: Crypto, pk: Key, lines: seq<string>, n: nat)
    requires n < |lines|
    ensures Sound(c, pk, lines[n], Due(c, lines, n)) ==>
              c.decodeRecord(lines[n]).Some? && Due(c, lines, n + 1) == c.decodeRecord(lines[n]).value.hash
  {
  }

  lemma {:induction false} CheckIsExact(c: Crypto, pk: Key, line: string, k: nat, due: string)
    ensures var r := Check(c, pk, line, k, due);
            && (r.Ok? <==> Sound(c, pk, line, due))
            && (r.Ok? ==> c.decodeRecord(line).Some? && r.value == c.decodeRecord(line).value.hash)
            && (r.Err? ==> Blames(c, pk, line, due, k, r.error))
  {
  }

  /** A log file: absent, or holding text. */
  class LogFile {
    var content: Option<string>

    constructor ()
      ensures content == None
    {
      content := None;
    }
  }

  method VerifyChain(c: Crypto, pk: Key, file: LogFile) returns (r: Result<string, VerifyError>)
    ensures r == match file.content
                 case None => Err(IoError)
                 case Some(text) => Verify(c, pk, text)
  {
    if file.content.None? {
      return Err(IoError);
    }
    var lines := Lines(file.content.value);
    var prev := GENESIS;
    var tip := prev;
    var i := 0;
    while i < |lines|
      invariant i <= |lines| && prev == tip
      invariant VerifyFrom(c, pk, lines, 0, GENESIS) == VerifyFrom(c, pk, lines[i..], i, prev)
    {
      assert lines[i..][0] == lines[i] && lines[i..][1..] == lines[i + 1..];
      var rec := c.decodeRecord(lines[i]);
      if rec.None? {
        return Err(ParseError);
      }
      if rec.value.prev != prev {
        return Err(ChainBreak(i));
      }
      var body := c.encodeBody(Body(rec.value.timestamp, rec.value.event, rec.value.fields, prev));
      var computed := c.hash(body);
      if computed != rec.value.hash {
        return Err(HashMismatch(i));
      }
      var sig := c.unhex(rec.value.signature);
      if sig.None? {
        return Err(BadSig(i));
      }
      if !c.verify(pk, body, sig.value) {
        return Err(BadSig(i));
      }
      prev := rec.value.hash;
      tip := prev;
      i := i + 1;
    }
    r := Ok(tip);
  }

  // ---------------------------------------------------------------- the writer

  /** The hash a writer resumes from: the last record's, or genesis if there is none or it does not
      decode. */
  function LastHash(c: Crypto, content: string): string {
    var lines := Lines(content);
    if lines == [] then GENESIS
    else match c.decodeRecord(lines[|lines| - 1])
      case None => GENESIS
      case Some(r) => r.hash
  }

  /** Where a writer resumes: after nothing, and after a last line that does not decode, at the sentinel;
      otherwise at that line's hash. */
  lemma {:induction false} ResumesAt(c: Crypto, s: string, line: string)
    requires Terminated(s) && OneLine(line)
    ensures LastHash(c, "") == GENESIS
    ensures LastHash(c, s + line + "\n")
         == match c.decodeRecord(line) case None => GENESIS case Some(r) => r.hash
  {
    hide Lines;
    NoLines();
    LinesAppend(s, line);
  }

  lemma {:induction false} NoLines()
    ensures Lines("") == []
  {
  }

  /** The record a writer produces on top of `tip`. */
  function Make(c: Crypto, sk: Key, tip: string, timestamp: string, event: string, fields: map<string, string>)
    : Record
  {
    var body := c.encodeBody(Body(timestamp, event, fields, tip));
    Record(timestamp, event, fields, tip, c.hash(body), c.hex(c.sign(sk, body)))
  }

  /** What happens to a file that any number of writers share. Writers are numbered; an append by a writer that
      is not open has no effect. */
  datatype Event =
    | Open(w: nat)
    | Append(w: nat, timestamp: string, event: string, fields: map<string, string>)

  datatype World = World(content: string, tips: map<nat, string>)

  predicate Appends(s: World, e: Event) {
    e.Append? && e.w in s.tips
  }

  function Step(c: Crypto, sk: Key, s: World, e: Event): World {
    match e
    case Open(w) => s.(tips := s.tips[w := LastHash(c, s.content)])
    case Append(w, timestamp, event, fields) =>
      if w !in s.tips then s else
      var rec := Make(c, sk, s.tips[w], timestamp, event, fields);
      World(s.content + c.encodeRecord(rec) + "\n", s.tips[w := rec.hash])
  }

  /** An absent log reads as an empty one. */
  function TextOf(content: Option<string>): string {
    if content.Some? then content.value else ""
  }

  class Writer {
    const file: LogFile
    const sk: Key
    var tip: string

    /** Opens the log, creating it empty if it is absent. */
    constructor (c: Crypto, file: LogFile, sk: Key)
      modifies file
      ensures this.file == file && this.sk == sk
      ensures file.content == Some(if old(file.content).Some? then old(file.content.value) else "")
      ensures tip == LastHash(c, file.content.value)
      ensures forall s: World, w: nat | s.content == TextOf(old(file.content)) ::
                Step(c, sk, s, Open(w)) == World(TextOf(file.content), s.tips[w := tip])
    {
      this.file := file;
      this.sk := sk;
      tip := if file.content.Some? then LastHash(c, file.content.value) else GENESIS;
      new;
      if file.content.None? {
        file.content := Some("");
      }
    }

    /** Appends one record on top of this writer's own idea of the tip. */
    method Append(c: Crypto, timestamp: string, event: string, fields: map<string, string>)
      returns (r: Result<(), VerifyError>)
      modifies this, file
      ensures r.Ok? <==> old(file.content).Some?
      ensures var rec := Make(c, sk, old(tip), timestamp, event, fields);
              if r.Ok?
              then file.content == Some(old(file.content.value) + c.encodeRecord(rec) + "\n") && tip == rec.hash
              else file.content == old(file.content) && tip == old(tip)
      ensures forall s: World, w: nat |
                r.Ok? && s.content == TextOf(old(file.content)) && w in s.tips && s.tips[w] == old(tip) ::
                Step(c, sk, s, Event.Append(w, timestamp, event, fields))
                  == World(TextOf(file.content), s.tips[w := tip])
    {
      var body := c.encodeBody(Body(timestamp, event, fields, tip));
      var thisHash := c.hash(body);
      var sig := c.sign(sk, body);
      var rec := Record(timestamp, event, fields, tip, thisHash, c.hex(sig));
      var line := c.encodeRecord(rec) + "\n";
      if file.content.None? {
        return Err(IoError);
      }
      file.content := Some(file.content.value + line);
      assert old(file.content.value) + line == old(file.content.value) + c.encodeRecord(rec) + "\n";
      tip := thisHash;
      r := Ok(());
    }
  }

  // ---------------------------------------------------------------- any number of writers on one file

  function Run(c: Crypto, sk: Key, s: World, es: seq<Event>): World
    decreases |es|
  {
    if es == [] then s else Run(c, sk, Step(c, sk, s, es[0]), es[1..])
  }

  /** The number, among all appends (counting from `i`), of the first whose writer's tip was not the last
      hash in the file. */
  function FirstStale(c: Crypto, sk: Key, s: World, es: seq<Event>, i: nat): Option<nat>
    decreases |es|
  {
    if es == [] then None
    else if Appends(s, es[0]) && s.tips[es[0].w] != LastHash(c, s.content) then Some(i)
    else FirstStale(c, sk, Step(c, sk, s, es[0]), es[1..], if Appends(s, es[0]) then i + 1 else i)
  }

  /** A file in which every complete line is a record made under `sk`, as writers leave it. */
  ghost predicate Written(c: Crypto, pk: Key, s: string) {
    && Terminated(s)
    && (Verify(c, pk, s).Ok? ==> Verify(c, pk, s).value == LastHash(c, s))
  }

  lemma {:induction false} AppendEffect(c: Crypto, sk: Key, pk: Key, s: string, tip: string, timestamp: string,
                                        event: string,
                     fields: map<string, string>)
    requires c.Lawful(sk, pk) && Written(c, pk, s)
    ensures var rec := Make(c, sk, tip, timestamp, event, fields);
            var t := s + c.encodeRecord(rec) + "\n";
            && Bodies(c, Lines(t)) == Bodies(c, Lines(s)) + [Body(timestamp, event, fields, tip)]
            && Written(c, pk, t) && LastHash(c, t) == rec.hash && |Lines(t)| == |Lines(s)| + 1
            && Verify(c, pk, t) == if Verify(c, pk, s).Err? then Verify(c, pk, s)
                                   else if tip == LastHash(c, s) then Ok(rec.hash)
                                   else Err(ChainBreak(|Lines(s)|))
  {
    hide Repeat, Bodies, Due, Lines;
    var rec := Make(c, sk, tip, timestamp, event, fields);
    LinesAppend(s, c.encodeRecord(rec));
    BodiesLast(c, Lines(s), c.encodeRecord(rec));
    VerifyLast(c, pk, Lines(s), c.encodeRecord(rec), 0, GENESIS);
  }

  lemma {:induction false} RunVerdict(c: Crypto, sk: Key, pk: Key, s: World, es: seq<Event>)
    requires c.Lawful(sk, pk) && Written(c, pk, s.content)
    ensures var t := Run(c, sk, s, es).content;
            Verify(c, pk, t) == if Verify(c, pk, s.content).Err? then Verify(c, pk, s.content)
                                else match FirstStale(c, sk, s, es, |Lines(s.content)|)
                                     case None => Ok(LastHash(c, t))
                                     case Some(i) => Err(ChainBreak(i))
    decreases |es|
  {
    hide Verify, LastHash, Make, Lines;
    if es != [] {
      var e := es[0];
      if Appends(s, e) {
        AppendEffect(c, sk, pk, s.content, s.tips[e.w], e.timestamp, e.event, e.fields);
      }
      RunVerdict(c, sk, pk, Step(c, sk, s, e), es[1..]);
    }
  }

  const NEW := World("", map[])

  /** Acceptance, over every interleaving of any number of writers opened, reopened and appending on one
      file under one key: the log verifies if and only if each append used the file's last hash, and then
      its tip is that hash; otherwise the verifier names exactly the first append that did not. */
  lemma {:induction false} AcceptanceOfInterleavings(c: Crypto, sk: Key, pk: Key, es: seq<Event>)
    requires c.Lawful(sk, pk)
    ensures var t := Run(c, sk, NEW, es).content;
            Verify(c, pk, t) == match FirstStale(c, sk, NEW, es, 0)
                                case None => Ok(LastHash(c, t))
                                case Some(i) => Err(ChainBreak(i))
  {
    hide Run, FirstStale;
    assert Lines("") == [];
    RunVerdict(c, sk, pk, NEW, es);
  }

  /** One writer, reopened any number of times, always leaves a log that verifies, with its own tip. */
  lemma {:induction false} SingleWriterVerifies(c: Crypto, sk: Key, pk: Key, w: nat, es: seq<Event>)
    requires c.Lawful(sk, pk)
    requires forall e <- es :: e.w == w
    ensures var t := Run(c, sk, NEW, [Open(w)] + es);
            w in t.tips && Verify(c, pk, t.content) == Ok(t.tips[w])
  {
    hide Run, FirstStale, Verify, LastHash, Step;
    AcceptanceOfInterleavings(c, sk, pk, [Open(w)] + es);
    SingleWriterFresh(c, sk, pk, w, es);
  }

  lemma {:induction false} SingleWriterFresh(c: Crypto, sk: Key, pk: Key, w: nat, es: seq<Event>)
    requires c.Lawful(sk, pk) && forall e <- es :: e.w == w
    ensures var t := Run(c, sk, NEW, [Open(w)] + es);
            && FirstStale(c, sk, NEW, [Open(w)] + es, 0) == None
            && w in t.tips && t.tips[w] == LastHash(c, t.content)
  {
    var all := [Open(w)] + es;
    assert all[1..] == es;
    assert Lines("") == [];
    FreshForever(c, sk, pk, w, Step(c, sk, NEW, Open(w)), es, 0);
  }

  lemma {:induction false} FreshForever(c: Crypto, sk: Key, pk: Key, w: nat, s: World, es: seq<Event>, i: nat)
    requires c.Lawful(sk, pk) && Written(c, pk, s.content) && (forall e <- es :: e.w == w)
    requires w in s.tips && s.tips[w] == LastHash(c, s.content)
    ensures var t := Run(c, sk, s, es);
            && FirstStale(c, sk, s, es, i) == None
            && w in t.tips && t.tips[w] == LastHash(c, t.content)
    decreases |es|
  {
    hide Verify, LastHash, Make, Lines;
    if es != [] {
      var e := es[0];
      if e.Append? {
        AppendEffect(c, sk, pk, s.content, s.tips[w], e.timestamp, e.event, e.fields);
      }
      FreshForever(c, sk, pk, w, Step(c, sk, s, e), es[1..], if Appends(s, e) then i + 1 else i);
    }
  }

  // ---------------------------------------------------------------- tamper evidence

  /** The bodies a log commits to. */
  function Bodies(c: Crypto, lines: seq<string>): seq<Body> {
    if lines == [] then []
    else (match c.decodeRecord(lines[0])
          case None => []
          case Some(r) => [BodyOf(r)]) + Bodies(c, lines[1..])
  }

  /** Each body hashes to what its successor names, and the last to the tip. */
  predicate Chained(c: Crypto, bs: seq<Body>, tip: string) {
    if bs == [] then tip == GENESIS
    else
      var last := bs[|bs| - 1];
      c.hash(c.encodeBody(last)) == tip && Chained(c, bs[..|bs| - 1], last.prev)
  }

  lemma {:induction false} AcceptedIsChained(c: Crypto, pk: Key, lines: seq<string>)
    requires VerifyFrom(c, pk, lines, 0, GENESIS).Ok?
    ensures Chained(c, Bodies(c, lines), VerifyFrom(c, pk, lines, 0, GENESIS).value)
    ensures |Bodies(c, lines)| == |lines|
    decreases |lines|
  {
    hide Repeat;
    if lines != [] {
      var front, last := lines[..|lines| - 1], lines[|lines| - 1];
      assert lines == front + [last];
      VerifyLast(c, pk, front, last, 0, GENESIS);
      AcceptedIsChained(c, pk, front);
      BodiesLast(c, front, last);
      var b := BodyOf(c.decodeRecord(last).value);
      assert Bodies(c, lines) == Bodies(c, front) + [b];
      assert (Bodies(c, front) + [b])[..|front|] == Bodies(c, front);
    }
  }

  lemma {:induction false} BodiesLast(c: Crypto, lines: seq<string>, line: string)
    requires c.decodeRecord(line).Some?
    ensures Bodies(c, lines + [line]) == Bodies(c, lines) + [BodyOf(c.decodeRecord(line).value)]
    decreases |lines|
  {
    if lines == [] {
      assert [] + [line] == [line];
    } else {
      assert (lines + [line])[1..] == lines[1..] + [line];
      BodiesLast(c, lines[1..], line);
    }
  }

  datatype Evidence = Same | Collision(a: Body, b: Body) | GenesisHit(a: Body)

  /** Compares two chains from the tip backwards and extracts what a difference amounts to. */
  function Compare(xs: seq<Body>, ys: seq<Body>): Evidence {
    if xs == [] && ys == [] then Same
    else if xs == [] then GenesisHit(ys[|ys| - 1])
    else if ys == [] then GenesisHit(xs[|xs| - 1])
    else
      var a, b := xs[|xs| - 1], ys[|ys| - 1];
      if a == b then Compare(xs[..|xs| - 1], ys[..|ys| - 1]) else Collision(a, b)
  }

  /** What is extracted is there: equal chains, two encodings with one hash, or a body that hashes to the
      sentinel. */
  predicate Exhibits(c: Crypto, xs: seq<Body>, ys: seq<Body>, found: Evidence) {
    match found
    case Same => xs == ys
    case Collision(a, b) =>
      a in xs && b in ys && c.encodeBody(a) != c.encodeBody(b) && c.hash(c.encodeBody(a)) == c.hash(c.encodeBody(b))
    case GenesisHit(a) => (a in xs || a in ys) && c.hash(c.encodeBody(a)) == GENESIS
  }

  lemma {:induction false} ChainsDiverge(c: Crypto, xs: seq<Body>, ys: seq<Body>, tip: string)
    requires c.Injective() && Chained(c, xs, tip) && Chained(c, ys, tip)
    ensures Exhibits(c, xs, ys, Compare(xs, ys))
  {
    hide Repeat, Exhibits;
    if xs != [] && ys != [] && xs[|xs| - 1] == ys[|ys| - 1] {
      var fx, fy := xs[..|xs| - 1], ys[..|ys| - 1];
      ChainsDiverge(c, fx, fy, xs[|xs| - 1].prev);
      OneMoreBody(c, xs, ys, Compare(fx, fy));
    } else {
      EndsDiffer(c, xs, ys, tip);
    }
  }

  lemma {:induction false} OneMoreBody(c: Crypto, xs: seq<Body>, ys: seq<Body>, found: Evidence)
    requires xs != [] && ys != [] && xs[|xs| - 1] == ys[|ys| - 1]
    requires Exhibits(c, xs[..|xs| - 1], ys[..|ys| - 1], found)
    ensures Exhibits(c, xs, ys, found)
  {
    hide Repeat;
    assert xs == xs[..|xs| - 1] + [xs[|xs| - 1]] && ys == ys[..|ys| - 1] + [ys[|ys| - 1]];
  }

  lemma {:induction false} EndsDiffer(c: Crypto, xs: seq<Body>, ys: seq<Body>, tip: string)
    requires c.Injective() && Chained(c, xs, tip) && Chained(c, ys, tip)
    requires xs == [] || ys == [] || xs[|xs| - 1] != ys[|ys| - 1]
    ensures Exhibits(c, xs, ys, Compare(xs, ys))
  {
    hide Repeat;
  }

  /** Tamper evidence: two accepted logs with the same tip, of whatever lengths and under whatever keys,
      record the same bodies, or they exhibit two different encodings with the same hash, or one that
      hashes to the genesis sentinel. The comparison extracts which. */
  lemma {:induction false} TamperEvidence(c: Crypto, pk1: Key, pk2: Key, log1: string, log2: string)
    requires c.Injective()
    requires Verify(c, pk1, log1).Ok? && Verify(c, pk2, log2) == Ok(Verify(c, pk1, log1).value)
    ensures var xs, ys := Bodies(c, Lines(log1)), Bodies(c, Lines(log2));
            && |xs| == |Lines(log1)| && |ys| == |Lines(log2)|
            && match Compare(xs, ys)
               case Same => xs == ys
               case Collision(a, b) =>
                 a in xs && b in ys && c.encodeBody(a) != c.encodeBody(b)
                 && c.hash(c.encodeBody(a)) == c.hash(c.encodeBody(b))
               case GenesisHit(a) => (a in xs || a in ys) && c.hash(c.encodeBody(a)) == GENESIS
  {
    hide Bodies, Lines, Compare, Chained;
    AcceptedIsChained(c, pk1, Lines(log1));
    AcceptedIsChained(c, pk2, Lines(log2));
    ChainsDiverge(c, Bodies(c, Lines(log1)), Bodies(c, Lines(log2)), Verify(c, pk1, log1).value);
  }
}
