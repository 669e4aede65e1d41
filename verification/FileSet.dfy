/** From walked files to file-set entries, and how the walk's limits line up with the wire's. */
module FileSet {
  import opened Bytes
  import opened Streams
  import opened Wire
  import opened Walk

  /** How a relative path is spelled in bytes. */
  type Spelling = Path -> seq<byte>

  function Clip(content: seq<byte>, size: nat): seq<byte> {
    if |content| <= size then content else content[..size]
  }

  function Least(a: nat, b: nat): nat {
    if a <= b then a else b
  }

  /** The chunked read of one file: at most the recorded size, however the file is handed out. */
  method ReadFile(fd: Input, size: u64) returns (buf: seq<byte>)
    requires fd.Valid()
    modifies fd
    ensures fd.Valid() && buf == Clip(old(fd.Rest()), size)
    ensures buf <= old(fd.Rest()) && |buf| == Least(size, |old(fd.Rest())|)
  {
    buf := [];
    ghost var all := fd.Rest();
    while true
      invariant fd.Valid() && old(fd.pos) <= fd.pos && buf == fd.data[old(fd.pos)..fd.pos]
      invariant |buf| < size || buf == []
      decreases |fd.data| - fd.pos
    {
      var chunk := fd.Read(8192);
      if chunk == [] {
        break;
      }
      buf := buf + chunk;
      assert buf == all[..|buf|];
      if |buf| >= size {
        buf := buf[..size];
        break;
      }
    }
  }

  /** Every file's entry, given what each file holds when it is read. */
  function Built(spell: Spelling, found: seq<Found>, contents: seq<seq<byte>>): (es: seq<FileEntry>)
    requires |contents| == |found|
    ensures |es| == |found|
    ensures forall k | 0 <= k < |es| ::
              es[k] == FileEntry(spell(found[k].relative), Clip(contents[k], found[k].size), found[k].size)
  {
    if found == [] then []
    else [FileEntry(spell(found[0].relative), Clip(contents[0], found[0].size), found[0].size)]
         + Built(spell, found[1..], contents[1..])
  }

  function Contents(fds: seq<Input>): (cs: seq<seq<byte>>)
    ensures |cs| == |fds| && forall k | 0 <= k < |fds| :: cs[k] == fds[k].data
  {
    if fds == [] then [] else [fds[0].data] + Contents(fds[1..])
  }

  method BuildFileset(spell: Spelling, found: seq<Found>, fds: seq<Input>) returns (es: seq<FileEntry>)
    requires |fds| == |found| && (forall fd <- fds :: fd.pos == 0)
    requires forall j, k | 0 <= j < k < |fds| :: fds[j] != fds[k]
    modifies fds
    ensures es == Built(spell, found, Contents(fds))
    ensures forall k | 0 <= k < |es| ::
              && es[k].relative == spell(found[k].relative) && es[k].size == found[k].size
              && es[k].bytes <= fds[k].data && |es[k].bytes| == Least(found[k].size, |fds[k].data|)
  {
    hide Clip, Built, Contents;
    es := [];
    ghost var all := Built(spell, found, Contents(fds));
    var i := 0;
    while i < |found|
      invariant i <= |found| && es == all[..i]
      invariant forall k | i <= k < |fds| :: fds[k].pos == 0
    {
      assert fds[i].Rest() == fds[i].data;
      var buf := ReadFile(fds[i], found[i].size);
      es := es + [FileEntry(spell(found[i].relative), buf, found[i].size)];
      assert all[..i + 1] == all[..i] + [all[i]];
      i := i + 1;
    }
    forall k | 0 <= k < |es|
      ensures es[k].bytes <= fds[k].data && |es[k].bytes| == Least(found[k].size, |fds[k].data|)
    {
      ClipIs(fds[k].data, found[k].size);
    }
  }

  lemma {:induction false} ClipIs(content: seq<byte>, size: nat)
    ensures Clip(content, size) <= content && |Clip(content, size)| == Least(size, |content|)
    ensures size <= |content| ==> Clip(content, size) == content[..size]
  {
  }

  // ---------------------------------------------------------------- the limits line up

  predicate ShortPaths(u: Utf8, spell: Spelling, found: seq<Found>) {
    forall f <- found :: |u.encode(u.lossy(spell(f.relative)))| <= MAX_PATH_LEN
  }

  predicate NoneShrank(found: seq<Found>, contents: seq<seq<byte>>)
    requires |contents| == |found|
  {
    forall k | 0 <= k < |found| :: found[k].size <= |contents[k]|
  }

  lemma {:induction false} EntryFitsWhen(u: Utf8, spell: Spelling, f: Found, content: seq<byte>)
    requires f.size <= MAX_ENTRY_BYTES
    ensures EntryFits(u, FileEntry(spell(f.relative), Clip(content, f.size), f.size))
       <==> |u.encode(u.lossy(spell(f.relative)))| <= MAX_PATH_LEN && f.size <= |content|
  {
  }

  lemma {:induction false} BuiltFits(u: Utf8, spell: Spelling, found: seq<Found>, contents: seq<seq<byte>>)
    requires |contents| == |found| <= MAX_ENTRIES && forall f <- found :: f.size <= MAX_ENTRY_BYTES
    ensures Fits(u, Built(spell, found, contents)) <==> ShortPaths(u, spell, found) && NoneShrank(found, contents)
  {
    hide EntryFits, Clip;
    var es := Built(spell, found, contents);
    forall k | 0 <= k < |found|
      ensures EntryFits(u, es[k]) <==>
              |u.encode(u.lossy(spell(found[k].relative)))| <= MAX_PATH_LEN && found[k].size <= |contents[k]|
      ensures es[k] in es && found[k] in found
    {
      EntryFitsWhen(u, spell, found[k], contents[k]);
    }
  }

  /** After a walk under the default limits, of a directory or a single file, the file set fits the wire
      exactly when the spelled paths are short enough and no file shrank before it was read: the wire's
      own limits on count and size are never what stops it. Growth is harmless. */
  lemma {:induction false} WalkedFits(root: Child, u: Utf8, spell: Spelling, contents: seq<seq<byte>>)
    requires WalkSpec(root, DEFAULT_LIMITS).error.None?
    requires |contents| == |WalkSpec(root, DEFAULT_LIMITS).out|
    ensures var found := WalkSpec(root, DEFAULT_LIMITS).out;
            Fits(u, Built(spell, found, contents)) <==> ShortPaths(u, spell, found) && NoneShrank(found, contents)
  {
    hide WalkSpec, Passes, Visits, Walk.Files, Fits;
    WalkIsComplete(root, DEFAULT_LIMITS);
    FileRootCount(root, DEFAULT_LIMITS);
    BuiltFits(u, spell, WalkSpec(root, DEFAULT_LIMITS).out, contents);
  }

  lemma {:induction false} FileRootCount(root: Child, limits: WalkLimits)
    requires WalkSpec(root, limits).error.None?
    ensures |WalkSpec(root, limits).out| <= if root.node.Dir? then limits.maxFiles else 1
  {
    hide WalkSpec, Passes;
    WalkIsComplete(root, limits);
  }

  lemma {:induction false} EntriesLength(u: Utf8, spell: Spelling, found: seq<Found>, contents: seq<seq<byte>>)
    requires |contents| == |found| && ShortPaths(u, spell, found)
    ensures |SerializeEntries(u, Built(spell, found, contents))|
         <= |found| * (12 + MAX_PATH_LEN) + TotalSize(found)
  {
    if found != [] {
      var es := Built(spell, found, contents);
      assert found[0] in found && forall f <- found[1..] :: f in found;
      EntriesLength(u, spell, found[1..], contents[1..]);
      assert es[1..] == Built(spell, found[1..], contents[1..]);
      assert |SerializeEntry(u, es[0])| <= 12 + MAX_PATH_LEN + found[0].size;
    }
  }

  lemma {:induction false} ExpectedAt(u: Utf8, es: seq<FileEntry>, k: nat)
    requires k < |es|
    ensures Expected(u, es)[k] == Frame(u.lossy(es[k].relative), es[k].bytes)
  {
    if k > 0 {
      ExpectedAt(u, es[1..], k - 1);
    }
  }

  /** With default limits, short paths and no shrunken file, the reader accepts the host's stream, whatever
      follows it, and sees each file under its path with what it held when it was read, up to its recorded
      size; and the stream has at most 309,515,472 bytes. */
  lemma {:induction false} LimitsLineUp(root: Child, u: Utf8, spell: Spelling, contents: seq<seq<byte>>, x: seq<byte>)
    requires u.Lawful() && WalkSpec(root, DEFAULT_LIMITS).error.None?
    requires var found := WalkSpec(root, DEFAULT_LIMITS).out;
             |contents| == |found| && ShortPaths(u, spell, found) && NoneShrank(found, contents)
    ensures var es := Built(spell, WalkSpec(root, DEFAULT_LIMITS).out, contents);
            && Parse(u, Serialize(u, es) + x) == Ok(Parsed(Expected(u, es), |Serialize(u, es)|))
            && |Serialize(u, es)| <= 309_515_472
    ensures var (found, r) :=
              (WalkSpec(root, DEFAULT_LIMITS).out,
               Parse(u, Serialize(u, Built(spell, WalkSpec(root, DEFAULT_LIMITS).out, contents)) + x));
            && r.Ok? && |r.value.frames| == |found|
            && forall k | 0 <= k < |found| ::
                 && found[k].size <= |contents[k]|
                 && r.value.frames[k] == Frame(u.lossy(spell(found[k].relative)), contents[k][..found[k].size])
  {
    hide Parse, SerializeEntries, WalkSpec, Passes, Fits, Visits, Walk.Files, Expected, ShortPaths, NoneShrank, NoWrap;
    var found := WalkSpec(root, DEFAULT_LIMITS).out;
    var es := Built(spell, found, contents);
    WalkedFits(root, u, spell, contents);
    RoundTrip(u, es, x);
    EntriesLength(u, spell, found, contents);
    WalkIsComplete(root, DEFAULT_LIMITS);
    FileRootCount(root, DEFAULT_LIMITS);
    DefaultIsNoWrap();
    Bounded(root, DEFAULT_LIMITS);
    assert |found| * (12 + MAX_PATH_LEN) <= 10_000 * (12 + MAX_PATH_LEN);
    forall k | 0 <= k < |found|
      ensures found[k].size <= |contents[k]|
      ensures Expected(u, es)[k] == Frame(u.lossy(spell(found[k].relative)), contents[k][..found[k].size])
    {
      FrameAt(u, spell, found, contents, k);
    }
  }

  lemma {:induction false} FrameAt(u: Utf8, spell: Spelling, found: seq<Found>, contents: seq<seq<byte>>, k: nat)
    requires |contents| == |found| && NoneShrank(found, contents) && k < |found|
    ensures found[k].size <= |contents[k]|
    ensures Expected(u, Built(spell, found, contents))[k]
         == Frame(u.lossy(spell(found[k].relative)), contents[k][..found[k].size])
  {
    hide Clip, Expected;
    ExpectedAt(u, Built(spell, found, contents), k);
    ClipIs(contents[k], found[k].size);
  }
}
