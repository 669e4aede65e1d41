/** Which error the reader's parser gives for which input. An input is refused for its first fault: in the
    header, in the entry after those that are in order, or in the trailer. */
module WireErrors {
  import opened Bytes
  import opened Wire

  /** The twelve bytes of the header, fault by fault in the order of the fields. */
  predicate HeaderFault(s: seq<byte>, e: ProtoError) {
    if |s| < 4 then e == UnexpectedEof
    else if s[..4] != [83, 69, 67, 75] then e == BadMagic
    else if |s| < 6 then e == UnexpectedEof
    else if s[4] != 1 || s[5] != 0 then e == BadVersion((s[4] as nat) + 256 * (s[5] as nat))
    else if |s| < 12 then e == UnexpectedEof
    else FromLe(s[8..12]) > 10_000 && e == TooLarge(FromLe(s[8..12]))
  }

  predicate HeaderOk(s: seq<byte>) {
    |s| >= 12 && s[..6] == [83, 69, 67, 75, 1, 0] && FromLe(s[8..12]) <= 10_000
  }

  /** One entry, likewise: path length, path, size, content. */
  predicate EntryFault(u: Utf8, t: seq<byte>, e: ProtoError) {
    if |t| < 4 then e == UnexpectedEof else
    var pl := FromLe(t[..4]);
    if pl > 4096 then e == TooLarge(pl)
    else if |t| < 4 + pl then e == UnexpectedEof
    else if u.decode(t[4..4 + pl]).None? then e == BadPath
    else if |t| < 12 + pl then e == UnexpectedEof
    else
      var bl := FromLe(t[4 + pl..12 + pl]);
      if bl > 16_777_216 then e == TooLarge(bl) else |t| < 12 + pl + bl && e == UnexpectedEof
  }

  predicate TrailerFault(t: seq<byte>, e: ProtoError) {
    if |t| < 4 then e == UnexpectedEof else t[..4] != [68, 79, 78, 69] && e == BadMagic
  }

  /** After the header come the entries of files that fit, and then `t`. */
  ghost predicate Follows(u: Utf8, s: seq<byte>, es: seq<FileEntry>, t: seq<byte>) {
    && HeaderOk(s) && |es| <= FromLe(s[8..12])
    && (forall e <- es :: EntryFits(u, e)) && s[12..] == SerializeEntries(u, es) + t
  }

  ghost predicate Refused(u: Utf8, s: seq<byte>, e: ProtoError) {
    || HeaderFault(s, e)
    || exists es, t :: Follows(u, s, es, t) &&
         if |es| < FromLe(s[8..12]) then EntryFault(u, t, e) else TrailerFault(t, e)
  }

  // ---------------------------------------------------------------- the parser's answer

  lemma {:induction false} TwoBytes(b: seq<byte>)
    requires |b| == 2
    ensures FromLe(b) == (b[0] as nat) + 256 * (b[1] as nat)
  {
    var c := b[1..];
    assert c == [b[1]] && c[1..] == [];
    assert FromLe(c) == c[0] + 256 * FromLe([]);
  }

  lemma {:induction false} HeaderBlames(u: Utf8, s: seq<byte>, e: ProtoError)
    ensures HeaderFault(s, e) ==> Parse(u, s) == Err(e)
    ensures Parse(u, s) == Err(e) ==> HeaderFault(s, e) || HeaderOk(s)
    ensures HeaderOk(s) ==> !HeaderFault(s, e)
    ensures HeaderOk(s) ==> Parse(u, s) == Resume([], 12, ParseBody(u, s[12..], FromLe(s[8..12])))
  {
    hide FromLe, ParseBody;
    if |s| >= 6 {
      TwoBytes(s[4..6]);
      assert s[..6] == s[..4] + s[4..6];
      assert s[4..6] == [s[4], s[5]];
    }
    HeaderPlain(s);
  }

  lemma {:induction false} HeaderPlain(s: seq<byte>)
    ensures HeaderOk(s) <==>
            |s| >= 12 && s[..4] == [83, 69, 67, 75] && s[4] == 1 && s[5] == 0 && FromLe(s[8..12]) <= 10_000
  {
    if |s| >= 12 {
      assert s[..6] == s[..4] + [s[4], s[5]];
    }
  }

  lemma {:induction false} EntryBlames(u: Utf8, t: seq<byte>, e: ProtoError)
    ensures ParseEntry(u, t) == Err(e) <==> EntryFault(u, t, e)
  {
    hide FromLe;
  }

  lemma {:induction false} EntriesAfter(u: Utf8, es: seq<FileEntry>, t: seq<byte>, n: nat)
    requires u.Lawful() && (forall e <- es :: EntryFits(u, e)) && |es| <= n
    ensures ParseEntries(u, SerializeEntries(u, es) + t, n)
         == Resume(Expected(u, es), |SerializeEntries(u, es)|, ParseEntries(u, t, n - |es|))
  {
    hide ParseEntry, SerializeEntry, EntryFits;
    var r := ParseEntries(u, t, n - |es|);
    if es == [] {
      assert [] + t == t;
      ResumeNothing(0, r);
    } else {
      var head, rest := SerializeEntry(u, es[0]), SerializeEntries(u, es[1..]) + t;
      assert SerializeEntries(u, es) + t == head + rest;
      EntryRoundTrip(u, es[0], rest);
      assert (head + rest)[|head|..] == rest;
      EntriesAfter(u, es[1..], t, n - 1);
      var f := Frame(u.lossy(es[0].relative), es[0].bytes);
      ResumeOne(f, |head|, Expected(u, es[1..]), |SerializeEntries(u, es[1..])|, r);
    }
  }

  lemma {:induction false} ResumeOne(f: Frame, used: nat, frames: seq<Frame>, more: nat, r: Result<Parsed, ProtoError>)
    ensures Resume([f], used, Resume(frames, more, r)) == Resume([f] + frames, used + more, r)
  {
    if r.Ok? {
      assert [f] + (frames + r.value.frames) == [f] + frames + r.value.frames;
    }
  }

  /** A body that is refused has a first fault, after entries that are in order. */
  lemma {:induction false} FirstFault(u: Utf8, s: seq<byte>, n: nat) returns (es: seq<FileEntry>, t: seq<byte>)
    requires u.Lawful() && ParseBody(u, s, n).Err?
    ensures |es| <= n && (forall e <- es :: EntryFits(u, e)) && s == SerializeEntries(u, es) + t
    ensures var e := ParseBody(u, s, n).error;
            if |es| < n then EntryFault(u, t, e) else TrailerFault(t, e)
    decreases n
  {
    hide EntryFits, ParseEntry, ParseBody, SerializeEntry, SerializeEntries, EntryFault, TrailerFault;
    es, t := [], s;
    NoEntries(u, s);
    if n > 0 && ParseEntry(u, s).Err? {
      EntryIsRefused(u, s, n);
    } else if n > 0 {
      var h := ParseEntry(u, s).value;
      EntryCanonical(u, s);
      var e := FileEntry(u.encode(h.frame.relativePath), h.frame.bytes, |h.frame.bytes|);
      RestIsRefused(u, s, n);
      es, t := FirstFault(u, s[h.used..], n - 1);
      OneMoreEntry(u, s, h.used, e, es, t);
      es := [e] + es;
    }
  }

  lemma {:induction false} NoEntries(u: Utf8, s: seq<byte>)
    ensures s == SerializeEntries(u, []) + s
    ensures ParseBody(u, s, 0).Err? ==> TrailerFault(s, ParseBody(u, s, 0).error)
  {
    assert s[0..] == s;
  }

  lemma {:induction false} EntryIsRefused(u: Utf8, s: seq<byte>, n: nat)
    requires n > 0 && ParseEntry(u, s).Err?
    ensures ParseBody(u, s, n) == Err(ParseEntry(u, s).error) && EntryFault(u, s, ParseEntry(u, s).error)
  {
    hide ParseEntry, EntryFault;
    EntryBlames(u, s, ParseEntry(u, s).error);
  }

  lemma {:induction false} OneMoreEntry(u: Utf8, s: seq<byte>, used: nat, e: FileEntry, es: seq<FileEntry>, t: seq<byte>)
    requires used <= |s| && s[..used] == SerializeEntry(u, e) && s[used..] == SerializeEntries(u, es) + t
    ensures s == SerializeEntries(u, [e] + es) + t
  {
    hide SerializeEntry;
    assert s == s[..used] + s[used..] && ([e] + es)[1..] == es;
  }

  lemma {:induction false} RestIsRefused(u: Utf8, s: seq<byte>, n: nat)
    requires n > 0 && ParseEntry(u, s).Ok? && ParseBody(u, s, n).Err?
    ensures ParseBody(u, s[ParseEntry(u, s).value.used..], n - 1) == ParseBody(u, s, n)
  {
    hide ParseEntry;
    var used := ParseEntry(u, s).value.used;
    var r := ParseEntries(u, s[used..], n - 1);
    if r.Ok? {
      assert s[used..][r.value.used..] == s[used + r.value.used..];
    }
  }

  lemma {:induction false} BodyBlames(u: Utf8, es: seq<FileEntry>, t: seq<byte>, n: nat, e: ProtoError)
    requires u.Lawful() && (forall x <- es :: EntryFits(u, x)) && |es| <= n
    requires if |es| < n then EntryFault(u, t, e) else TrailerFault(t, e)
    ensures ParseBody(u, SerializeEntries(u, es) + t, n) == Err(e)
  {
    hide ParseEntry, SerializeEntries, EntryFits, EntryFault, Expected;
    EntriesAfter(u, es, t, n);
    if |es| < n {
      EntryBlames(u, t, e);
    } else {
      var s, k := SerializeEntries(u, es) + t, |SerializeEntries(u, es)|;
      assert s[k..] == t;
    }
  }

  /** Exactly which inputs are refused, and with which error; all others are accepted. */
  lemma {:induction false} ParseIsExact(u: Utf8, s: seq<byte>, e: ProtoError)
    requires u.Lawful()
    ensures Parse(u, s) == Err(e) <==> Refused(u, s, e)
  {
    hide Parse, ParseBody, SerializeEntries, EntryFits, EntryFault, TrailerFault, HeaderFault, HeaderOk, FromLe;
    HeaderBlames(u, s, e);
    HeaderPlain(s);
    if Parse(u, s) == Err(e) && !HeaderFault(s, e) {
      var n := FromLe(s[8..12]);
      var es, t := FirstFault(u, s[12..], n);
      assert Follows(u, s, es, t);
    }
    if Refused(u, s, e) && !HeaderFault(s, e) {
      var es, t :| Follows(u, s, es, t)
                   && if |es| < FromLe(s[8..12]) then EntryFault(u, t, e) else TrailerFault(t, e);
      BodyBlames(u, es, t, FromLe(s[8..12]), e);
    }
  }
}
