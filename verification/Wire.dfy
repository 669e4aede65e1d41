/** The host-to-reader wire format: the host's serialiser, the reader's parser, and the laws that
    tie them together. */
module Wire {
  import opened Bytes
  import opened Streams

  // "SECK" and "DONE"
  const MAGIC_HEADER: seq<byte> := [83, 69, 67, 75]
  const MAGIC_TRAILER: seq<byte> := [68, 79, 78, 69]
  const VERSION: nat := 1
  const MAX_ENTRY_BYTES: nat := 16 * 1024 * 1024
  const MAX_ENTRIES: nat := 10_000
  const MAX_PATH_LEN: nat := 4096

  type u64 = x: nat | x < 0x1_0000_0000_0000_0000

  /** Strict decoding, encoding, and the lossy conversion the host applies to a path. */
  datatype Utf8 = Utf8(
    decode: seq<byte> -> Option<string>,
    encode: string -> seq<byte>,
    lossy: seq<byte> -> string)
  {
    /** What is assumed of UTF-8: encoding then decoding is the identity, and a decodable byte string
        is the encoding of what it decodes to; the lossy conversion keeps valid text. */
    ghost predicate Lawful() {
      && (forall s :: decode(encode(s)) == Some(s) && lossy(encode(s)) == s)
      && (forall b, s :: decode(b) == Some(s) ==> encode(s) == b)
    }
  }

  /** A file as the host holds it: `size` was recorded by the walk, `bytes` were read later. */
  datatype FileEntry = FileEntry(relative: seq<byte>, bytes: seq<byte>, size: u64)

  /** A file as the reader reconstructs it. */
  datatype Frame = Frame(relativePath: string, bytes: seq<byte>)

  datatype ProtoError = BadMagic | BadVersion(v: nat) | UnexpectedEof | BadPath | TooLarge(n: nat)

  // ---------------------------------------------------------------- the host's side

  function SerializeEntry(u: Utf8, e: FileEntry): seq<byte> {
    var rel := u.encode(u.lossy(e.relative));
    Le(|rel|, 4) + rel + Le(e.size, 8) + e.bytes
  }

  function SerializeEntries(u: Utf8, es: seq<FileEntry>): seq<byte> {
    if es == [] then [] else SerializeEntry(u, es[0]) + SerializeEntries(u, es[1..])
  }

  function Header(reserved: seq<byte>, count: nat): seq<byte> {
    MAGIC_HEADER + Le(VERSION, 2) + reserved + Le(count, 4)
  }

  /** Everything the host writes on the reader's input pipe. */
  function Serialize(u: Utf8, es: seq<FileEntry>): seq<byte> {
    Header([0, 0], |es|) + SerializeEntries(u, es) + MAGIC_TRAILER
  }

  /** The writer: header, framing and content of every entry, trailer, each buffer pushed through the
      partial-write loop. A failed run has sent a proper prefix of the stream. */
  method WriteFilesetProtocol(u: Utf8, fd: Output, es: seq<FileEntry>)
    returns (r: Result<(), WriteError>)
    modifies fd
    ensures r.Ok? ==> fd.sent == old(fd.sent) + Serialize(u, es)
    ensures r.Err? ==> old(fd.sent) <= fd.sent < old(fd.sent) + Serialize(u, es)
  {
    hide SerializeEntries, Le;
    ghost var goal := fd.sent + Serialize(u, es);
    ghost var later := SerializeEntries(u, es) + MAGIC_TRAILER;
    r := Push(fd, Header([0, 0], |es|), later, goal);
    if r.Err? {
      return;
    }
    var i := 0;
    while i < |es|
      invariant i <= |es| && old(fd.sent) <= fd.sent
      invariant later == SerializeEntries(u, es[i..]) + MAGIC_TRAILER
      invariant goal == fd.sent + later
    {
      var e := es[i];
      var rel := u.encode(u.lossy(e.relative));
      var framing := Le(|rel|, 4) + rel + Le(e.size, 8);
      NextEntry(u, es, i);
      later := SerializeEntries(u, es[i + 1..]) + MAGIC_TRAILER;
      r := Push(fd, framing, e.bytes + later, goal);
      if r.Err? {
        return;
      }
      r := Push(fd, e.bytes, later, goal);
      if r.Err? {
        return;
      }
      i := i + 1;
    }
    NoMoreEntries(u, es);
    r := Push(fd, MAGIC_TRAILER, [], goal);
  }

  lemma {:induction false} NoMoreEntries(u: Utf8, es: seq<FileEntry>)
    ensures SerializeEntries(u, es[|es|..]) + MAGIC_TRAILER == MAGIC_TRAILER
  {
  }

  lemma {:induction false} NextEntry(u: Utf8, es: seq<FileEntry>, i: nat)
    requires i < |es|
    ensures var rel := u.encode(u.lossy(es[i].relative));
            var later := SerializeEntries(u, es[i + 1..]) + MAGIC_TRAILER;
            SerializeEntries(u, es[i..]) + MAGIC_TRAILER == Le(|rel|, 4) + rel + Le(es[i].size, 8) + (es[i].bytes + later)
  {
    hide Le;
    assert es[i..][0] == es[i] && es[i..][1..] == es[i + 1..];
  }

  /** One buffer of the stream; `goal` is the descriptor's content once `later` has followed it. */
  method Push(fd: Output, part: seq<byte>, ghost later: seq<byte>, ghost goal: seq<byte>)
    returns (r: Result<(), WriteError>)
    requires goal == fd.sent + (part + later)
    modifies fd
    ensures old(fd.sent) <= fd.sent
    ensures r.Ok? ==> fd.sent == old(fd.sent) + part && goal == fd.sent + later
    ensures r.Err? ==> fd.sent < goal
  {
    r := fd.WriteToSandboxPipe(part);
    if r.Err? {
      ghost var k: nat :| k < |part| && fd.sent == old(fd.sent) + part[..k];
      assert goal[..|fd.sent|] == fd.sent;
    }
  }

  // ---------------------------------------------------------------- the reader's side

  datatype Entry = Entry(frame: Frame, used: nat)
  datatype Parsed = Parsed(frames: seq<Frame>, used: nat)

  function ParseEntry(u: Utf8, s: seq<byte>): (r: Result<Entry, ProtoError>)
    ensures r.Ok? ==> 12 <= r.value.used <= |s|
  {
    if |s| < 4 then Err(UnexpectedEof) else
    var pl := FromLe(s[..4]);
    if pl > MAX_PATH_LEN then Err(TooLarge(pl)) else
    if |s| < 4 + pl then Err(UnexpectedEof) else
    match u.decode(s[4..4 + pl])
    case None => Err(BadPath)
    case Some(path) =>
      if |s| < 12 + pl then Err(UnexpectedEof) else
      var bl := FromLe(s[4 + pl..12 + pl]);
      if bl > MAX_ENTRY_BYTES then Err(TooLarge(bl)) else
      if |s| < 12 + pl + bl then Err(UnexpectedEof)
      else Ok(Entry(Frame(path, s[12 + pl..12 + pl + bl]), 12 + pl + bl))
  }

  /** A parse that continues one which already produced `frames` from `used` bytes. */
  function Resume(frames: seq<Frame>, used: nat, r: Result<Parsed, ProtoError>)
    : Result<Parsed, ProtoError>
  {
    match r
    case Ok(p) => Ok(Parsed(frames + p.frames, used + p.used))
    case Err(e) => Err(e)
  }

  function ParseEntries(u: Utf8, s: seq<byte>, n: nat): (r: Result<Parsed, ProtoError>)
    ensures r.Ok? ==> r.value.used <= |s| && |r.value.frames| == n
    decreases n
  {
    if n == 0 then Ok(Parsed([], 0)) else
    match ParseEntry(u, s)
    case Err(e) => Err(e)
    case Ok(h) => Resume([h.frame], h.used, ParseEntries(u, s[h.used..], n - 1))
  }

  function ParseTrailer(s: seq<byte>): Result<Parsed, ProtoError> {
    if |s| < 4 then Err(UnexpectedEof)
    else if s[..4] != MAGIC_TRAILER then Err(BadMagic)
    else Ok(Parsed([], 4))
  }

  function ParseBody(u: Utf8, s: seq<byte>, n: nat): (r: Result<Parsed, ProtoError>)
    ensures r.Ok? ==> r.value.used <= |s|
  {
    match ParseEntries(u, s, n)
    case Err(e) => Err(e)
    case Ok(p) => Resume(p.frames, p.used, ParseTrailer(s[p.used..]))
  }

  /** What the parser makes of the bytes available to it; the order of the checks is the code's. */
  function Parse(u: Utf8, s: seq<byte>): (r: Result<Parsed, ProtoError>)
    ensures r.Ok? ==> r.value.used <= |s|
  {
    if |s| < 4 then Err(UnexpectedEof) else
    if s[..4] != MAGIC_HEADER then Err(BadMagic) else
    if |s| < 6 then Err(UnexpectedEof) else
    if FromLe(s[4..6]) != VERSION then Err(BadVersion(FromLe(s[4..6]))) else
    if |s| < 12 then Err(UnexpectedEof) else
    var n := FromLe(s[8..12]);
    if n > MAX_ENTRIES then Err(TooLarge(n)) else
    Resume([], 12, ParseBody(u, s[12..], n))
  }

  /** The reader's parser over a stream that may hand out its bytes in pieces of any size. */
  method ReadFrames(u: Utf8, reader: Input) returns (r: Result<seq<Frame>, ProtoError>)
    requires reader.Valid()
    modifies reader
    ensures reader.Valid()
    ensures var p := Parse(u, old(reader.Rest()));
            if p.Ok? then r == Ok(p.value.frames) && reader.pos == old(reader.pos) + p.value.used
            else r == Err(p.error)
  {
    hide FromLe, ParseBody;
    ghost var s, from := reader.Rest(), reader.pos;
    var magic := reader.ReadExact(4);
    if magic.None? {
      return Err(UnexpectedEof);
    }
    SliceOfRest(reader.data, from, 0, 4);
    if magic.value != MAGIC_HEADER {
      return Err(BadMagic);
    }
    var version := reader.ReadExact(2);
    if version.None? {
      return Err(UnexpectedEof);
    }
    SliceOfRest(reader.data, from, 4, 6);
    if FromLe(version.value) != VERSION {
      return Err(BadVersion(FromLe(version.value)));
    }
    var reserved := reader.ReadExact(2);
    if reserved.None? {
      return Err(UnexpectedEof);
    }
    var count := reader.ReadExact(4);
    if count.None? {
      return Err(UnexpectedEof);
    }
    SliceOfRest(reader.data, from, 8, 12);
    var n := FromLe(count.value);
    if n > MAX_ENTRIES {
      return Err(TooLarge(n));
    }
    assert s[12..] == reader.Rest();
    ResumeNothing(12, ParseBody(u, reader.Rest(), n));
    r := ReadBody(u, reader, n);
  }

  method ReadBody(u: Utf8, reader: Input, n: nat) returns (r: Result<seq<Frame>, ProtoError>)
    requires reader.Valid()
    modifies reader
    ensures reader.Valid()
    ensures var p := ParseBody(u, old(reader.Rest()), n);
            if p.Ok? then r == Ok(p.value.frames) && reader.pos == old(reader.pos) + p.value.used
            else r == Err(p.error)
  {
    hide ParseEntry, ParseEntries, ParseBody, ParsedSoFar, Resume, FromLe;
    ghost var s, from := reader.Rest(), reader.pos;
    var out := [];
    var i := 0;
    BodyStart(u, s, n);
    while i < n
      invariant i <= n && reader.Valid() && from <= reader.pos && reader.Rest() == s[reader.pos - from..]
      invariant ParsedSoFar(u, s, n, i, out, reader.pos - from)
    {
      ghost var done := reader.pos - from;
      BodyStep(u, s, n, i, out, done);
      var e := ReadEntry(u, reader);
      if e.Err? {
        return Err(e.error);
      }
      assert s[done..][reader.pos - from - done..] == s[reader.pos - from..];
      out := out + [e.value];
      i := i + 1;
    }
    BodyEnd(u, s, n, out, reader.pos - from);
    var trailer := reader.ReadExact(4);
    if trailer.None? {
      return Err(UnexpectedEof);
    }
    if trailer.value != MAGIC_TRAILER {
      return Err(BadMagic);
    }
    r := Ok(out);
  }

  /** Where the entry loop stands after `i` of `n` entries. */
  ghost predicate ParsedSoFar(u: Utf8, s: seq<byte>, n: nat, i: nat, out: seq<Frame>, done: nat)
    requires i <= n
  {
    && done <= |s|
    && ParseEntries(u, s, n) == Resume(out, done, ParseEntries(u, s[done..], n - i))
  }

  lemma {:induction false} BodyStart(u: Utf8, s: seq<byte>, n: nat)
    ensures ParsedSoFar(u, s, n, 0, [], 0)
  {
    hide ParseEntries;
    assert s[0..] == s;
    ResumeNothing(0, ParseEntries(u, s, n));
  }

  lemma {:induction false} BodyStep(u: Utf8, s: seq<byte>, n: nat, i: nat, out: seq<Frame>, done: nat)
    requires i < n && ParsedSoFar(u, s, n, i, out, done)
    ensures match ParseEntry(u, s[done..])
            case Err(e) => ParseBody(u, s, n) == Err(e)
            case Ok(h) => ParsedSoFar(u, s, n, i + 1, out + [h.frame], done + h.used)
  {
    hide ParseEntry;
    var h := ParseEntry(u, s[done..]);
    if h.Ok? {
      var used := h.value.used;
      assert s[done..][used..] == s[done + used..];
      ResumeTwice(out, done, h.value.frame, used, ParseEntries(u, s[done + used..], n - i - 1));
    }
  }

  lemma {:induction false} BodyEnd(u: Utf8, s: seq<byte>, n: nat, out: seq<Frame>, done: nat)
    requires ParsedSoFar(u, s, n, n, out, done)
    ensures var t := s[done..];
            if |t| < 4 then ParseBody(u, s, n) == Err(UnexpectedEof)
            else if t[..4] != MAGIC_TRAILER then ParseBody(u, s, n) == Err(BadMagic)
            else ParseBody(u, s, n) == Ok(Parsed(out, done + 4))
  {
    assert out + [] == out;
  }

  lemma {:induction false} ResumeTwice(frames: seq<Frame>, used: nat, f: Frame, more: nat,
                                       r: Result<Parsed, ProtoError>)
    ensures Resume(frames, used, Resume([f], more, r)) == Resume(frames + [f], used + more, r)
  {
    if r.Ok? {
      assert frames + ([f] + r.value.frames) == frames + [f] + r.value.frames;
    }
  }

  lemma {:induction false} SliceOfRest(data: seq<byte>, from: nat, i: nat, j: nat)
    requires i <= j && from + j <= |data|
    ensures data[from..][i..j] == data[from + i..from + j]
  {
  }

  method ReadEntry(u: Utf8, reader: Input) returns (r: Result<Frame, ProtoError>)
    requires reader.Valid()
    modifies reader
    ensures reader.Valid()
    ensures var p := ParseEntry(u, old(reader.Rest()));
            if p.Ok? then r == Ok(p.value.frame) && reader.pos == old(reader.pos) + p.value.used
            else r == Err(p.error)
  {
    hide FromLe;
    ghost var s, from := reader.Rest(), reader.pos;
    var pathLength := reader.ReadExact(4);
    if pathLength.None? {
      return Err(UnexpectedEof);
    }
    SliceOfRest(reader.data, from, 0, 4);
    var pl := FromLe(pathLength.value);
    if pl > MAX_PATH_LEN {
      return Err(TooLarge(pl));
    }
    var path := reader.ReadExact(pl);
    if path.None? {
      return Err(UnexpectedEof);
    }
    SliceOfRest(reader.data, from, 4, 4 + pl);
    var relativePath := u.decode(path.value);
    if relativePath.None? {
      return Err(BadPath);
    }
    var byteLength := reader.ReadExact(8);
    if byteLength.None? {
      return Err(UnexpectedEof);
    }
    SliceOfRest(reader.data, from, 4 + pl, 12 + pl);
    var bl := FromLe(byteLength.value);
    if bl > MAX_ENTRY_BYTES {
      return Err(TooLarge(bl));
    }
    var bytes := reader.ReadExact(bl);
    if bytes.None? {
      return Err(UnexpectedEof);
    }
    SliceOfRest(reader.data, from, 12 + pl, 12 + pl + bl);
    r := Ok(Frame(relativePath.value, bytes.value));
  }

  // ---------------------------------------------------------------- prefix freedom

  lemma {:induction false} EntryIgnoresTail(u: Utf8, s: seq<byte>, x: seq<byte>)
    ensures ParseEntry(u, s) != Err(UnexpectedEof) ==> ParseEntry(u, s + x) == ParseEntry(u, s)
  {
    if |s| >= 4 {
      assert (s + x)[..4] == s[..4];
      var pl := FromLe(s[..4]);
      if |s| >= 4 + pl {
        assert (s + x)[4..4 + pl] == s[4..4 + pl];
        if |s| >= 12 + pl {
          assert (s + x)[4 + pl..12 + pl] == s[4 + pl..12 + pl];
          var bl := FromLe(s[4 + pl..12 + pl]);
          if |s| >= 12 + pl + bl {
            assert (s + x)[12 + pl..12 + pl + bl] == s[12 + pl..12 + pl + bl];
          }
        }
      }
    }
  }

  lemma {:induction false} EntriesIgnoreTail(u: Utf8, s: seq<byte>, n: nat, x: seq<byte>)
    ensures ParseEntries(u, s, n) != Err(UnexpectedEof)
        ==> ParseEntries(u, s + x, n) == ParseEntries(u, s, n)
    decreases n
  {
    if n > 0 {
      EntryIgnoresTail(u, s, x);
      var h := ParseEntry(u, s);
      if h.Ok? {
        assert (s + x)[h.value.used..] == s[h.value.used..] + x;
        EntriesIgnoreTail(u, s[h.value.used..], n - 1, x);
      }
    }
  }

  /** A verdict reached without hitting the end of the input does not depend on what follows. */
  lemma {:induction false} ParseIgnoresTail(u: Utf8, s: seq<byte>, x: seq<byte>)
    ensures Parse(u, s) != Err(UnexpectedEof) ==> Parse(u, s + x) == Parse(u, s)
  {
    var t := s + x;
    if |s| >= 4 {
      assert t[..4] == s[..4];
      if |s| >= 6 {
        assert t[4..6] == s[4..6];
        if |s| >= 12 {
          assert t[8..12] == s[8..12] && t[12..] == s[12..] + x;
          var n := FromLe(s[8..12]);
          EntriesIgnoreTail(u, s[12..], n, x);
          var p := ParseEntries(u, s[12..], n);
          if p.Ok? && |s[12..][p.value.used..]| >= 4 {
            assert t[12..][p.value.used..][..4] == s[12..][p.value.used..][..4];
          }
        }
      }
    }
  }

  /** Accepted streams are prefix free: every proper prefix of the consumed bytes makes the parser
      ask for more, and nothing after them changes what was parsed. */
  lemma {:induction false} PrefixFree(u: Utf8, s: seq<byte>, k: nat, x: seq<byte>)
    requires Parse(u, s).Ok?
    ensures k < Parse(u, s).value.used ==> Parse(u, s[..k]) == Err(UnexpectedEof)
    ensures Parse(u, s[..Parse(u, s).value.used] + x) == Parse(u, s)
  {
    var used := Parse(u, s).value.used;
    if k < used {
      assert s[..k] + s[k..] == s;
      ParseIgnoresTail(u, s[..k], s[k..]);
    }
    var consumed := s[..used];
    assert consumed + s[used..] == s;
    if Parse(u, consumed) == Err(UnexpectedEof) {
      ConsumedSuffices(u, s);
    }
    ParseIgnoresTail(u, consumed, s[used..]);
    ParseIgnoresTail(u, consumed, x);
  }

  lemma {:induction false} EntryFromConsumed(u: Utf8, s: seq<byte>, m: nat)
    requires ParseEntry(u, s).Ok? && ParseEntry(u, s).value.used <= m <= |s|
    ensures ParseEntry(u, s[..m]) == ParseEntry(u, s)
  {
    var c, used := s[..m], ParseEntry(u, s).value.used;
    assert c[..4] == s[..4];
    var pl := FromLe(s[..4]);
    assert c[4..4 + pl] == s[4..4 + pl];
    assert c[4 + pl..12 + pl] == s[4 + pl..12 + pl];
    assert c[12 + pl..used] == s[12 + pl..used];
  }

  lemma {:induction false} EntriesFromConsumed(u: Utf8, s: seq<byte>, n: nat, m: nat)
    requires ParseEntries(u, s, n).Ok? && ParseEntries(u, s, n).value.used <= m <= |s|
    ensures ParseEntries(u, s[..m], n) == ParseEntries(u, s, n)
    decreases n
  {
    hide ParseEntry, FromLe;
    if n > 0 {
      EntryFromConsumed(u, s, m);
      var used := ParseEntry(u, s).value.used;
      assert s[..m][used..] == s[used..][..m - used];
      EntriesFromConsumed(u, s[used..], n - 1, m - used);
    }
  }

  lemma {:induction false} ConsumedSuffices(u: Utf8, s: seq<byte>)
    requires Parse(u, s).Ok?
    ensures Parse(u, s[..Parse(u, s).value.used]) == Parse(u, s)
  {
    hide FromLe, ParseEntries;
    var used := Parse(u, s).value.used;
    var c := s[..used];
    var body := s[12..];
    var n := FromLe(s[8..12]);
    var p := ParseEntries(u, body, n).value;
    assert c[..4] == s[..4] && c[4..6] == s[4..6] && c[8..12] == s[8..12];
    assert c[12..] == body[..used - 12];
    EntriesFromConsumed(u, body, n, used - 12);
    assert body[..used - 12][p.used..][..4] == body[p.used..][..4];
  }

  // ---------------------------------------------------------------- round trip and canonicity

  /** What the reader should see of a file set. */
  function Expected(u: Utf8, es: seq<FileEntry>): (fs: seq<Frame>)
    ensures |fs| == |es|
  {
    if es == [] then []
    else [Frame(u.lossy(es[0].relative), es[0].bytes)] + Expected(u, es[1..])
  }

  /** One entry survives the trip: its encoded path and its content are within the limits and the file
      did not change length between the walk and the read. */
  predicate EntryFits(u: Utf8, e: FileEntry) {
    && |u.encode(u.lossy(e.relative))| <= MAX_PATH_LEN
    && e.size <= MAX_ENTRY_BYTES
    && e.size == |e.bytes|
  }

  predicate Fits(u: Utf8, es: seq<FileEntry>) {
    |es| <= MAX_ENTRIES && forall e <- es :: EntryFits(u, e)
  }

  lemma {:induction false} EntryLayout(u: Utf8, e: FileEntry, x: seq<byte>)
    ensures var rel := u.encode(u.lossy(e.relative));
            var s := SerializeEntry(u, e) + x;
            && |s| == 12 + |rel| + |e.bytes| + |x|
            && s[..4] == Le(|rel|, 4) && s[4..] == rel + Le(e.size, 8) + e.bytes + x
            && s[4..4 + |rel|] == rel && s[4 + |rel|..12 + |rel|] == Le(e.size, 8)
            && s[12 + |rel|..] == e.bytes + x
  {
  }

  lemma {:induction false} SmallField(n: nat, width: nat)
    requires width == 4 || width == 8
    ensures FromLe(Le(n, width)) == if width == 4 then n % 0x1_0000_0000 else n % 0x1_0000_0000_0000_0000
  {
    LeRoundTrip(n, width);
    FieldWidths();
  }

  /** The parser recovers an entry that fits, whatever follows it. */
  lemma {:induction false} EntryRoundTrip(u: Utf8, e: FileEntry, x: seq<byte>)
    requires u.Lawful() && EntryFits(u, e)
    ensures ParseEntry(u, SerializeEntry(u, e) + x)
         == Ok(Entry(Frame(u.lossy(e.relative), e.bytes), |SerializeEntry(u, e)|))
  {
    hide FromLe, Le;
    var rel := u.encode(u.lossy(e.relative));
    var s := SerializeEntry(u, e) + x;
    EntryLayout(u, e, x);
    SmallField(|rel|, 4);
    SmallField(e.size, 8);
    assert s[12 + |rel|..12 + |rel| + e.size] == e.bytes;
  }

  /** An entry that comes back with its path and content did fit. */
  lemma {:induction false} EntryRecovered(u: Utf8, e: FileEntry, x: seq<byte>)
    requires u.Lawful()
    requires var r := ParseEntry(u, SerializeEntry(u, e) + x);
             r.Ok? && r.value.frame == Frame(u.lossy(e.relative), e.bytes)
    ensures EntryFits(u, e)
  {
    hide FromLe, Le;
    var path := u.lossy(e.relative);
    var rel := u.encode(path);
    var s := SerializeEntry(u, e) + x;
    EntryLayout(u, e, x);
    SmallField(|rel|, 4);
    SmallField(e.size, 8);
    var pl := FromLe(s[..4]);
    assert u.decode(s[4..4 + pl]) == Some(path);
    assert s[4..4 + pl] == rel;
  }

  lemma {:induction false} EntriesRoundTrip(u: Utf8, es: seq<FileEntry>, x: seq<byte>)
    requires u.Lawful() && forall e <- es :: EntryFits(u, e)
    ensures ParseEntries(u, SerializeEntries(u, es) + x, |es|)
         == Ok(Parsed(Expected(u, es), |SerializeEntries(u, es)|))
  {
    hide ParseEntry, SerializeEntry;
    if es != [] {
      var head, rest := SerializeEntry(u, es[0]), SerializeEntries(u, es[1..]) + x;
      assert SerializeEntries(u, es) + x == head + rest;
      EntryRoundTrip(u, es[0], rest);
      assert (head + rest)[|head|..] == rest;
      EntriesRoundTrip(u, es[1..], x);
    }
  }

  lemma {:induction false} EntriesRecovered(u: Utf8, es: seq<FileEntry>, x: seq<byte>)
    requires u.Lawful()
    requires var r := ParseEntries(u, SerializeEntries(u, es) + x, |es|);
             r.Ok? && r.value.frames == Expected(u, es)
    ensures forall e <- es :: EntryFits(u, e)
  {
    hide ParseEntry, SerializeEntry, EntryFits;
    if es != [] {
      var head, rest := SerializeEntry(u, es[0]), SerializeEntries(u, es[1..]) + x;
      var s := head + rest;
      assert SerializeEntries(u, es) + x == s;
      var h := ParseEntry(u, s).value;
      var t := ParseEntries(u, s[h.used..], |es| - 1).value;
      assert ([h.frame] + t.frames)[0] == h.frame && ([h.frame] + t.frames)[1..] == t.frames;
      assert t.frames == Expected(u, es)[1..] == Expected(u, es[1..]);
      EntryRecovered(u, es[0], rest);
      EntryRoundTrip(u, es[0], rest);
      assert s[h.used..] == rest;
      EntriesRecovered(u, es[1..], x);
    }
  }

  lemma {:induction false} StreamLayout(u: Utf8, es: seq<FileEntry>, x: seq<byte>)
    ensures var s := Serialize(u, es) + x;
            && |s| >= 12 && s[..4] == MAGIC_HEADER && s[4..6] == Le(VERSION, 2)
            && s[8..12] == Le(|es|, 4)
            && s[12..] == SerializeEntries(u, es) + (MAGIC_TRAILER + x)
  {
  }

  /** The round trip, with its exact condition: followed by any bytes, the host's stream is parsed back
      into the host's paths and contents if and only if the file set fits; and then the parser stops
      precisely at the end of the stream. */
  lemma {:induction false} RoundTrip(u: Utf8, es: seq<FileEntry>, x: seq<byte>)
    requires u.Lawful()
    ensures var r := Parse(u, Serialize(u, es) + x);
            (r.Ok? && r.value.frames == Expected(u, es)) <==> Fits(u, es)
    ensures Fits(u, es) ==> Parse(u, Serialize(u, es) + x) == Ok(Parsed(Expected(u, es), |Serialize(u, es)|))
  {
    hide Parse, Serialize, SerializeEntries, Expected, ParseEntries;
    var s := Serialize(u, es) + x;
    StreamPrologue(u, es, x);
    var n := |es| % 0x1_0000_0000;
    if Fits(u, es) {
      BodyRoundTrip(u, es, x);
    }
    if Parse(u, s).Ok? && Parse(u, s).value.frames == Expected(u, es) {
      ResumeNothing(12, ParseBody(u, s[12..], n));
      ResumeNothing(4, ParseTrailer(s[12..][ParseEntries(u, s[12..], n).value.used..]));
      var p := ParseEntries(u, s[12..], n).value;
      assert p.frames + [] == p.frames;
      assert |p.frames| == n == |es|;
      EntriesRecovered(u, es, MAGIC_TRAILER + x);
    }
  }

  lemma {:induction false} ResumeNothing(used: nat, r: Result<Parsed, ProtoError>)
    ensures r.Ok? ==> Resume([], used, r) == Ok(Parsed(r.value.frames, used + r.value.used))
    ensures used == 0 ==> Resume([], used, r) == r
  {
    if r.Ok? {
      assert [] + r.value.frames == r.value.frames;
    }
  }

  lemma {:induction false} StreamPrologue(u: Utf8, es: seq<FileEntry>, x: seq<byte>)
    ensures var s := Serialize(u, es) + x;
            var n := |es| % 0x1_0000_0000;
            && s[12..] == SerializeEntries(u, es) + (MAGIC_TRAILER + x)
            && Parse(u, s) == if n > MAX_ENTRIES then Err(TooLarge(n))
                              else Resume([], 12, ParseBody(u, s[12..], n))
  {
    hide Serialize, SerializeEntries, ParseBody, Le, FromLe;
    StreamLayout(u, es, x);
    LeRoundTrip(VERSION, 2);
    FieldWidths();
    SmallField(|es|, 4);
  }

  lemma {:induction false} BodyRoundTrip(u: Utf8, es: seq<FileEntry>, x: seq<byte>)
    requires u.Lawful() && Fits(u, es)
    ensures Resume([], 12, ParseBody(u, SerializeEntries(u, es) + (MAGIC_TRAILER + x), |es|))
         == Ok(Parsed(Expected(u, es), |Serialize(u, es)|))
  {
    var entries := SerializeEntries(u, es);
    EntriesRoundTrip(u, es, MAGIC_TRAILER + x);
    var rest := (entries + (MAGIC_TRAILER + x))[|entries|..];
    assert rest[..4] == MAGIC_TRAILER;
    ResumeNothing(12, ParseBody(u, entries + (MAGIC_TRAILER + x), |es|));
    assert Expected(u, es) + [] == Expected(u, es);
  }

  /** The file set a host would have to hold to produce these frames. */
  function Originals(u: Utf8, fs: seq<Frame>): (es: seq<FileEntry>)
    requires forall f <- fs :: |f.bytes| <= MAX_ENTRY_BYTES
    ensures |es| == |fs|
  {
    if fs == [] then []
    else [FileEntry(u.encode(fs[0].relativePath), fs[0].bytes, |fs[0].bytes|)] + Originals(u, fs[1..])
  }

  lemma {:induction false} EntryCanonical(u: Utf8, s: seq<byte>)
    requires u.Lawful() && ParseEntry(u, s).Ok?
    ensures var r := ParseEntry(u, s).value;
            && |r.frame.bytes| <= MAX_ENTRY_BYTES
            && var e := FileEntry(u.encode(r.frame.relativePath), r.frame.bytes, |r.frame.bytes|);
               EntryFits(u, e) && s[..r.used] == SerializeEntry(u, e)
  {
    hide FromLe, Le;
    var r := ParseEntry(u, s).value;
    var pl := FromLe(s[..4]);
    LeCanonical(s[..4]);
    LeCanonical(s[4 + pl..12 + pl]);
    assert u.encode(r.frame.relativePath) == s[4..4 + pl];
    assert s[..r.used] == s[..4] + s[4..4 + pl] + s[4 + pl..12 + pl] + s[12 + pl..r.used];
  }

  lemma {:induction false} EntriesCanonical(u: Utf8, s: seq<byte>, n: nat)
    requires u.Lawful() && ParseEntries(u, s, n).Ok?
    ensures var r := ParseEntries(u, s, n).value;
            && (forall f <- r.frames :: |f.bytes| <= MAX_ENTRY_BYTES)
            && Expected(u, Originals(u, r.frames)) == r.frames
            && (forall e <- Originals(u, r.frames) :: EntryFits(u, e))
            && s[..r.used] == SerializeEntries(u, Originals(u, r.frames))
    decreases n
  {
    hide ParseEntry, SerializeEntry, EntryFits;
    if n > 0 {
      EntryCanonical(u, s);
      var h := ParseEntry(u, s).value;
      EntriesCanonical(u, s[h.used..], n - 1);
      var t := ParseEntries(u, s[h.used..], n - 1).value;
      var r := ParseEntries(u, s, n).value;
      assert r.frames == [h.frame] + t.frames && r.frames[1..] == t.frames;
      var es := Originals(u, r.frames);
      assert es[1..] == Originals(u, t.frames);
      assert s[..r.used] == s[..h.used] + s[h.used..][..t.used];
    }
  }

  /** Canonicity: whatever the parser accepts is, apart from the two reserved bytes it ignores, the
      host's own serialisation of a fitting file set that reads back as the very same frames. */
  lemma {:induction false} Canonical(u: Utf8, s: seq<byte>)
    requires u.Lawful() && Parse(u, s).Ok?
    ensures var p := Parse(u, s).value;
            && (forall f <- p.frames :: |f.bytes| <= MAX_ENTRY_BYTES)
            && p.used >= 8
            && var es := Originals(u, p.frames);
               && Fits(u, es) && Expected(u, es) == p.frames
               && s[..p.used][6 := 0][7 := 0] == Serialize(u, es)
  {
    hide ParseEntries, SerializeEntries, Originals, EntryFits, Expected;
    var body, n := s[12..], FromLe(s[8..12]);
    EntriesCanonical(u, body, n);
    var q := ParseEntries(u, body, n).value;
    var p := Parse(u, s).value;
    assert p.frames == q.frames by {
      assert q.frames + [] == q.frames && [] + q.frames == q.frames;
    }
    HeaderCanonical(s);
    assert s[..p.used] == s[..12] + body[..q.used] + body[q.used..][..4];
  }

  lemma {:induction false} HeaderCanonical(s: seq<byte>)
    requires |s| >= 12 && s[..4] == MAGIC_HEADER && FromLe(s[4..6]) == VERSION
    ensures s[..12][6 := 0][7 := 0] == Header([0, 0], FromLe(s[8..12]))
  {
    LeCanonical(s[4..6]);
    LeCanonical(s[8..12]);
    assert s[..12] == s[..4] + s[4..6] + s[6..8] + s[8..12];
  }

  /** Distinct fitting file sets, as the reader sees them, have streams none of which is a prefix of
      another. */
  lemma {:induction false} StreamsDiffer(u: Utf8, es: seq<FileEntry>, fs: seq<FileEntry>)
    requires u.Lawful() && Fits(u, es) && Fits(u, fs)
    requires Serialize(u, es) <= Serialize(u, fs)
    ensures Expected(u, es) == Expected(u, fs)
  {
    hide Parse, Serialize, Expected, Fits;
    var a, b := Serialize(u, es), Serialize(u, fs);
    assert a + b[|a|..] == b && b + [] == b;
    RoundTrip(u, es, b[|a|..]);
    RoundTrip(u, fs, []);
  }

  /** A file set that fits except that its last file shrank after the walk. */
  predicate LastShrank(u: Utf8, es: seq<FileEntry>) {
    && 0 < |es| <= MAX_ENTRIES
    && (forall e <- es[..|es| - 1] :: EntryFits(u, e))
    && var e := es[|es| - 1];
       |u.encode(u.lossy(e.relative))| <= MAX_PATH_LEN && |e.bytes| < e.size <= MAX_ENTRY_BYTES
  }

  lemma {:induction false} EntriesRunOut(u: Utf8, es: seq<FileEntry>)
    requires u.Lawful() && LastShrank(u, es)
    ensures var r := ParseEntries(u, SerializeEntries(u, es) + MAGIC_TRAILER, |es|);
            r == Err(UnexpectedEof)
            || (r.Ok? && |SerializeEntries(u, es) + MAGIC_TRAILER| < r.value.used + 4)
  {
    hide ParseEntry, SerializeEntry, EntryFits;
    var head, rest := SerializeEntry(u, es[0]), SerializeEntries(u, es[1..]) + MAGIC_TRAILER;
    assert SerializeEntries(u, es) + MAGIC_TRAILER == head + rest;
    if |es| == 1 {
      assert rest == MAGIC_TRAILER;
      LastEntryRunsOut(u, es[0]);
    } else {
      assert es[0] in es[..|es| - 1];
      EntryRoundTrip(u, es[0], rest);
      assert (head + rest)[|head|..] == rest;
      assert es[..|es| - 1][1..] == es[1..][..|es| - 2];
      EntriesRunOut(u, es[1..]);
    }
  }

  lemma {:induction false} LastEntryRunsOut(u: Utf8, e: FileEntry)
    requires u.Lawful() && LastShrank(u, [e])
    ensures var s := SerializeEntry(u, e) + MAGIC_TRAILER;
            ParseEntry(u, s) == Err(UnexpectedEof)
            || (ParseEntry(u, s).Ok? && |s| < ParseEntry(u, s).value.used + 4)
  {
    hide FromLe, Le;
    var rel := u.encode(u.lossy(e.relative));
    EntryLayout(u, e, MAGIC_TRAILER);
    SmallField(|rel|, 4);
    SmallField(e.size, 8);
  }

  /** When the last file shrank, the parser is still waiting after the whole stream. */
  lemma {:induction false} ShrunkStreamIsShort(u: Utf8, es: seq<FileEntry>, k: nat)
    requires u.Lawful() && LastShrank(u, es) && k <= |Serialize(u, es)|
    ensures Parse(u, Serialize(u, es)[..k]) == Err(UnexpectedEof)
  {
    hide Serialize, SerializeEntries, ParseEntries;
    var s := Serialize(u, es);
    StreamPrologue(u, es, []);
    assert s + [] == s && MAGIC_TRAILER + [] == MAGIC_TRAILER;
    EntriesRunOut(u, es);
    assert Parse(u, s) == Err(UnexpectedEof);
    assert s[..k] + s[k..] == s;
    ParseIgnoresTail(u, s[..k], s[k..]);
  }

  lemma {:induction false} FirstEntry(u: Utf8, es: seq<FileEntry>, x: seq<byte>)
    requires es != []
    ensures SerializeEntries(u, es) + x == SerializeEntry(u, es[0]) + (SerializeEntries(u, es[1..]) + x)
  {
    hide SerializeEntry;
  }

  /** A first path longer than the wire allows is rejected by the reader, though the walk and the host's
      serialiser let it through. */
  lemma {:induction false} LongPathIsRejected(u: Utf8, es: seq<FileEntry>)
    requires 0 < |es| <= MAX_ENTRIES
    requires MAX_PATH_LEN < |u.encode(u.lossy(es[0].relative))| < 0x1_0000_0000
    ensures Parse(u, Serialize(u, es)) == Err(TooLarge(|u.encode(u.lossy(es[0].relative))|))
  {
    hide Parse, Serialize, FromLe, Le, SerializeEntry, SerializeEntries;
    var rel := u.encode(u.lossy(es[0].relative));
    StreamPrologue(u, es, []);
    assert Serialize(u, es) + [] == Serialize(u, es);
    var rest := SerializeEntries(u, es[1..]) + (MAGIC_TRAILER + []);
    var body := SerializeEntry(u, es[0]) + rest;
    FirstEntry(u, es, MAGIC_TRAILER + []);
    EntryLayout(u, es[0], rest);
    SmallField(|rel|, 4);
    assert ParseEntry(u, body) == Err(TooLarge(|rel|));
  }
}
