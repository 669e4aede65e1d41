/** Finding the files' bytes in a prompt again, by searching for its markers. */
module Recovery {
  import opened Bytes
  import opened Text
  import opened Wire
  import opened Prompt
  import Base64

  /** What a consumer does: search for the begin marker, then for the end marker after it, and decode
      what stands between the two line breaks. */
  function Recover(n: string, s: string, from: nat): seq<Option<seq<byte>>>
    decreases |s| - from
  {
    match First(Begin(n), s, from)
    case None => []
    case Some(i) =>
      var inside := i + |Begin(n)|;
      match First(End(n), s, inside)
      case None => []
      case Some(j) => [Segment(s, inside, j)] + Recover(n, s, j + |End(n)|)
  }

  /** What stands between a begin marker that ends at `inside` and an end marker at `j`. */
  function Segment(s: string, inside: nat, j: nat): Option<seq<byte>>
    requires inside <= j <= |s|
  {
    if j - inside < 2 then None else Base64.Decode(s[inside + 1..j - 1])
  }

  // ---------------------------------------------------------------- around one section

  /** A section's markers: the begin marker at `b` opens a line, and between it and the end marker stand a line
      break, the content and a line break. */
  ghost predicate Marked(n: string, s: string, content: string, b: int) {
    var inside := b + |Begin(n)|;
    var e := inside + |content| + 2;
    && b > 0 && Occurs(Begin(n), s, b) && Occurs(End(n), s, e)
    && s[b - 1] == '\n' && s[inside..e] == ['\n'] + content + ['\n']
    && Plain(n) && '<' !in content
  }

  function EndOf(n: string, content: string, b: int): int {
    b + |Begin(n)| + |content| + 2
  }

  lemma {:induction false} InBounds(p: string, s: string, i: int)
    requires Occurs(p, s, i)
    ensures 0 <= i && i + |p| <= |s|
  {
  }

  lemma {:induction false} MarkerTail(n: string)
    requires Plain(n)
    ensures forall d | 0 < d < |Begin(n)| :: Begin(n)[d] != '<'
    ensures forall d | 0 < d < |End(n)| :: End(n)[d] != '<'
    ensures |Begin(n)| >= 12 && |End(n)| >= 12
    ensures Begin(n)[0] == End(n)[0] == '<' && Begin(n)[7] == 'b' && End(n)[7] == 'e'
  {
  }

  lemma {:induction false} NoTagInside(n: string, s: string, content: string, b: int, i: int)
    requires Marked(n, s, content, b) && b < i < EndOf(n, content, b)
    ensures 0 <= i < |s| && s[i] != '<'
  {
    hide Begin, End;
    MarkerTail(n);
    OccursAtHead(Begin(n), s, b);
    var inside := b + |Begin(n)|;
    if i < inside {
      assert s[i] == s[b + (i - b)];
    } else {
      assert s[i] == s[inside..EndOf(n, content, b)][i - inside];
    }
  }

  /** Between a section's markers, and within its begin marker, no marker starts. */
  lemma {:induction false} NoneInside(p: string, n: string, s: string, content: string, b: int, i: int)
    requires Marked(n, s, content, b) && IsMarker(p, n) && b < i < EndOf(n, content, b)
    ensures !Occurs(p, s, i)
  {
    MarkerTail(n);
    NoTagInside(n, s, content, b, i);
    if Occurs(p, s, i) {
      OccursAtHead(p, s, i);
    }
  }

  /** A marker that starts before a section's begin marker ends before the line break in front of it. */
  lemma {:induction false} MarkerBefore(p: string, n: string, s: string, content: string, b: int, i: int)
    requires Marked(n, s, content, b) && IsMarker(p, n) && Occurs(p, s, i) && i < b
    ensures i + |p| <= b - 1
  {
    MarkerLacksSeparators(p, n);
    if i + |p| > b - 1 {
      NotAcross(p, s, i, b - 1);
    }
  }

  lemma {:induction false} BeginNotEndAt(n: string, s: string, i: int)
    requires Occurs(Begin(n), s, i) && Plain(n)
    ensures !Occurs(End(n), s, i)
  {
    hide Begin, End, Occurs;
    MarkerTail(n);
    OccursAtHead(Begin(n), s, i);
    if Occurs(End(n), s, i) {
      OccursAtHead(End(n), s, i);
    }
  }

  /** An end marker that starts no later than a section's is it, or lies before the section's begin marker. */
  lemma {:induction false} EndBefore(n: string, s: string, content: string, b: int, j: int)
    requires Marked(n, s, content, b) && Occurs(End(n), s, j) && j <= EndOf(n, content, b)
    ensures j == EndOf(n, content, b) || j + |End(n)| <= b - 1
  {
    hide Occurs, Marked, Begin, End, EndOf;
    MarkedFacts(n, s, content, b);
    BeginNotEndAt(n, s, b);
    IsAMarker(n);
    if b < j < EndOf(n, content, b) {
      NoneInside(End(n), n, s, content, b, j);
    } else if j < b {
      MarkerBefore(End(n), n, s, content, b, j);
    }
  }

  lemma {:induction false} IsAMarker(n: string)
    ensures IsMarker(Begin(n), n) && IsMarker(End(n), n) && |Begin(n)| > 0 && |End(n)| > 0
  {
  }

  lemma {:induction false} MarkedFacts(n: string, s: string, content: string, b: int)
    requires Marked(n, s, content, b)
    ensures Occurs(Begin(n), s, b) && Occurs(End(n), s, EndOf(n, content, b))
    ensures Plain(n) && 0 < b && b + |Begin(n)| + 2 <= EndOf(n, content, b) <= |s|
    ensures Segment(s, b + |Begin(n)|, EndOf(n, content, b)) == Base64.Decode(content)
  {
    hide Base64.Decode;
    var inside, e := b + |Begin(n)|, EndOf(n, content, b);
    assert s[inside + 1..e - 1] == s[inside..e][1..|content| + 1] == content;
  }

  /** The first end marker after a section's begin marker is the section's. */
  lemma {:induction false} FirstEnd(n: string, s: string, content: string, b: int)
    requires Marked(n, s, content, b)
    ensures 0 < b && First(End(n), s, b + |Begin(n)|) == Some(EndOf(n, content, b))
  {
    hide Occurs, Marked, Begin, End, EndOf;
    MarkedFacts(n, s, content, b);
    IsAMarker(n);
    var r := First(End(n), s, b + |Begin(n)|).value;
    EndBefore(n, s, content, b, r);
  }

  /** Text with an opened tag in it is not base64. */
  lemma {:induction false} TagIsNotBase64(t: string)
    requires '<' in t
    ensures Base64.Decode(t).None?
  {
    hide Base64.Decode, Base64.Encode;
    if Base64.Decode(t).Some? {
      Base64.EncodeDecode(t);
      Base64.EncodeIsPlain(Base64.Decode(t).value);
    }
  }

  /** A segment that reaches from before a section's begin marker to its end marker. */
  lemma {:induction false} WideSegment(n: string, s: string, content: string, b: int, inside: nat)
    requires Marked(n, s, content, b) && inside <= b - 1
    ensures EndOf(n, content, b) <= |s| && Segment(s, inside, EndOf(n, content, b)).None?
  {
    hide Base64.Decode;
    MarkedFacts(n, s, content, b);
    OccursAtHead(Begin(n), s, b);
    var e := EndOf(n, content, b);
    var t := s[inside + 1..e - 1];
    assert t[b - inside - 1] == s[b] == '<';
    TagIsNotBase64(t);
  }

  // ---------------------------------------------------------------- the sections of a prompt

  /** A prompt seen as its sections' markers, in order. */
  ghost predicate AllMarked(n: string, s: string, contents: seq<string>, at: seq<int>) {
    && |contents| == |at|
    && (forall k | 0 <= k < |at| :: Marked(n, s, contents[k], at[k]))
    && (forall k | 0 <= k < |at| - 1 :: EndOf(n, contents[k], at[k]) + |End(n)| <= at[k + 1])
    && (forall i | Occurs(Begin(n), s, i) :: |at| > 0 && i <= at[|at| - 1])
  }

  /** Every begin marker from `from` on is a section's. */
  ghost predicate OnlyAt(n: string, s: string, at: seq<int>, from: int) {
    forall i | from <= i && Occurs(Begin(n), s, i) :: i in at
  }

  lemma {:induction false} Rest(n: string, s: string, contents: seq<string>, at: seq<int>)
    requires AllMarked(n, s, contents, at) && |at| > 1
    ensures AllMarked(n, s, contents[1..], at[1..])
  {
    hide Marked, Occurs, EndOf;
    assert at[1..][|at| - 2] == at[|at| - 1];
    assert forall k | 0 <= k < |at| - 1 :: at[1..][k] == at[k + 1] && contents[1..][k] == contents[k + 1];
  }

  lemma {:induction false} Ascending(n: string, s: string, contents: seq<string>, at: seq<int>, k: nat)
    requires AllMarked(n, s, contents, at) && 0 < k < |at|
    ensures EndOf(n, contents[0], at[0]) + |End(n)| <= at[k]
  {
    hide Marked, Occurs;
    if k > 1 {
      Ascending(n, s, contents, at, k - 1);
    }
  }

  /** What a search from `from` finds next: no begin marker, a section's, or one before it. */
  lemma {:induction false} NextBegin(n: string, s: string, contents: seq<string>, at: seq<int>, from: nat)
    requires AllMarked(n, s, contents, at) && at != [] && from <= at[0]
    ensures First(Begin(n), s, from).Some? && First(Begin(n), s, from).value <= at[0]
  {
    hide Occurs, Begin, First;
    MarkedFacts(n, s, contents[0], at[0]);
    FirstSpec(Begin(n), s, from);
  }

  lemma {:induction false} FirstSpec(p: string, s: string, from: nat)
    ensures var r := First(p, s, from);
            (r.Some? ==> from <= r.value && Occurs(p, s, r.value))
            && forall i | from <= i && Occurs(p, s, i) :: r.Some? && r.value <= i
  {
  }

  /** One segment, whatever begin marker comes first: it ends at the section's end marker, or before the
      section's begin marker. */
  lemma {:induction false} OneSegment(n: string, s: string, content: string, b: int, i: nat)
    requires Marked(n, s, content, b) && Occurs(Begin(n), s, i) && i <= b
    ensures var r := First(End(n), s, i + |Begin(n)|);
            && r.Some? && i + |Begin(n)| <= r.value <= |s|
            && (r.value == EndOf(n, content, b) || r.value + |End(n)| <= b - 1)
            && (i == b ==> r.value == EndOf(n, content, b))
            && (i < b && r.value == EndOf(n, content, b) ==> Segment(s, i + |Begin(n)|, r.value).None?)
  {
    hide Occurs, Marked, Begin, End, EndOf, First, Segment;
    MarkedFacts(n, s, content, b);
    IsAMarker(n);
    if i < b {
      MarkerBefore(Begin(n), n, s, content, b, i);
      WideSegment(n, s, content, b, i + |Begin(n)|);
    } else {
      FirstEnd(n, s, content, b);
    }
    FirstSpec(End(n), s, i + |Begin(n)|);
    var r := First(End(n), s, i + |Begin(n)|).value;
    InBounds(End(n), s, r);
    EndBefore(n, s, content, b, r);
  }

  /** Whatever the paths contain, the search finds at least one segment a section. */
  lemma {:induction false} AtLeast(n: string, s: string, contents: seq<string>, at: seq<int>, from: nat)
    requires AllMarked(n, s, contents, at) && (at != [] ==> from <= at[0])
    ensures |Recover(n, s, from)| >= |at|
    decreases |s| - from
  {
    hide Marked, Occurs, First, Begin, End, EndOf, Segment, Recover;
    if at != [] {
      NextBegin(n, s, contents, at, from);
      var i := First(Begin(n), s, from).value;
      FirstSpec(Begin(n), s, from);
      InBounds(Begin(n), s, i);
      IsAMarker(n);
      OneSegment(n, s, contents[0], at[0], i);
      RecoverStep(n, s, from);
      var r := First(End(n), s, i + |Begin(n)|).value;
      if r == EndOf(n, contents[0], at[0]) {
        if |at| > 1 {
          Rest(n, s, contents, at);
          AtLeast(n, s, contents[1..], at[1..], r + |End(n)|);
        }
      } else {
        AtLeast(n, s, contents, at, r + |End(n)|);
      }
    }
  }

  lemma {:induction false} RecoverStep(n: string, s: string, from: nat)
    requires First(Begin(n), s, from).Some?
    requires First(End(n), s, First(Begin(n), s, from).value + |Begin(n)|).Some?
    ensures var inside := First(Begin(n), s, from).value + |Begin(n)|;
            var j := First(End(n), s, inside).value;
            j <= |s| && Recover(n, s, from) == [Segment(s, inside, j)] + Recover(n, s, j + |End(n)|)
  {
    hide Occurs, Segment, Begin, End;
    var inside := First(Begin(n), s, from).value + |Begin(n)|;
    FirstSpec(End(n), s, inside);
    InBounds(End(n), s, First(End(n), s, inside).value);
  }

  function Decoded(contents: seq<string>): (r: seq<Option<seq<byte>>>)
    ensures |r| == |contents| && forall k | 0 <= k < |r| :: r[k] == Base64.Decode(contents[k])
  {
    if contents == [] then [] else [Base64.Decode(contents[0])] + Decoded(contents[1..])
  }

  /** The search yields exactly the sections' contents if and only if every begin marker it can meet is a
      section's. */
  lemma {:induction false} RecoverExact(n: string, s: string, contents: seq<string>, at: seq<int>, from: nat)
    requires AllMarked(n, s, contents, at) && (at != [] ==> from <= at[0])
    requires forall k | 0 <= k < |contents| :: Base64.Decode(contents[k]).Some?
    requires at == [] ==> First(Begin(n), s, from).None?
    ensures Recover(n, s, from) == Decoded(contents) <==> OnlyAt(n, s, at, from)
    decreases |at|
  {
    hide Marked, Occurs, First, Begin, End, EndOf, Segment, Base64.Decode, AllMarked;
    FirstSpec(Begin(n), s, from);
    if at != [] {
      SameLength(n, s, contents, at);
      NextBegin(n, s, contents, at, from);
      var i := First(Begin(n), s, from).value;
      if i == at[0] {
        ExactFirst(n, s, contents, at, from);
      } else {
        FakeFirst(n, s, contents, at, from);
      }
    } else {
      SameLength(n, s, contents, at);
      NothingLeft(n, s, from);
    }
  }

  lemma {:induction false} SameLength(n: string, s: string, contents: seq<string>, at: seq<int>)
    requires AllMarked(n, s, contents, at)
    ensures |contents| == |at|
    ensures at != [] ==> Marked(n, s, contents[0], at[0])
  {
  }

  /** A begin marker before the section's own spoils the result. */
  lemma {:induction false} FakeFirst(n: string, s: string, contents: seq<string>, at: seq<int>, from: nat)
    requires AllMarked(n, s, contents, at) && at != [] && from <= at[0]
    requires forall k | 0 <= k < |contents| :: Base64.Decode(contents[k]).Some?
    requires First(Begin(n), s, from).Some? && First(Begin(n), s, from).value < at[0]
    ensures Recover(n, s, from) != Decoded(contents)
    ensures !OnlyAt(n, s, at, from)
  {
    hide Marked, Occurs, First, Begin, End, EndOf, Segment, Base64.Decode, Recover;
    FirstSpec(Begin(n), s, from);
    var i := First(Begin(n), s, from).value;
    OneSegment(n, s, contents[0], at[0], i);
    RecoverStep(n, s, from);
    var r := First(End(n), s, i + |Begin(n)|).value;
    if r != EndOf(n, contents[0], at[0]) {
      AtLeast(n, s, contents, at, r + |End(n)|);
    }
    NotAt(n, s, contents, at, i);
  }

  lemma {:induction false} NotAt(n: string, s: string, contents: seq<string>, at: seq<int>, i: int)
    requires AllMarked(n, s, contents, at) && at != [] && i < at[0]
    ensures i !in at
  {
    hide Marked, Occurs, Begin, End;
    if i in at {
      var k :| 0 <= k < |at| && at[k] == i;
      if k > 0 {
        Ascending(n, s, contents, at, k);
      }
    }
  }

  /** A first section found as it should be leaves the rest to the rest. */
  lemma {:induction false} ExactFirst(n: string, s: string, contents: seq<string>, at: seq<int>, from: nat)
    requires AllMarked(n, s, contents, at) && at != [] && from <= at[0]
    requires forall k | 0 <= k < |contents| :: Base64.Decode(contents[k]).Some?
    requires First(Begin(n), s, from) == Some(at[0])
    ensures Recover(n, s, from) == Decoded(contents) <==> OnlyAt(n, s, at, from)
    decreases |at|, 0
  {
    hide Marked, Occurs, First, Begin, End, EndOf, Segment, Base64.Decode;
    var e := EndOf(n, contents[0], at[0]);
    MarkedFacts(n, s, contents[0], at[0]);
    FirstEnd(n, s, contents[0], at[0]);
    var later := e + |End(n)|;
    assert Recover(n, s, from) == [Base64.Decode(contents[0])] + Recover(n, s, later);
    assert Decoded(contents) == [Base64.Decode(contents[0])] + Decoded(contents[1..]);
    if |at| == 1 {
      FirstSpec(Begin(n), s, later);
      assert First(Begin(n), s, later).None?;
      NothingLeft(n, s, later);
    } else {
      Rest(n, s, contents, at);
      RecoverExact(n, s, contents[1..], at[1..], later);
    }
    OnlyLater(n, s, contents, at, from);
  }

  lemma {:induction false} NothingLeft(n: string, s: string, from: nat)
    requires First(Begin(n), s, from).None?
    ensures Recover(n, s, from) == [] && OnlyAt(n, s, [], from)
  {
    hide Occurs;
    FirstSpec(Begin(n), s, from);
  }

  lemma {:induction false} OnlyLater(n: string, s: string, contents: seq<string>, at: seq<int>, from: nat)
    requires AllMarked(n, s, contents, at) && at != [] && First(Begin(n), s, from) == Some(at[0])
    ensures OnlyAt(n, s, at, from) <==> OnlyAt(n, s, at[1..], EndOf(n, contents[0], at[0]) + |End(n)|)
  {
    hide Marked, Occurs, First, Begin, End;
    FirstSpec(Begin(n), s, from);
    IsAMarker(n);
    var later := EndOf(n, contents[0], at[0]) + |End(n)|;
    MarkedFacts(n, s, contents[0], at[0]);
    forall i | Occurs(Begin(n), s, i) && from <= i < later
      ensures i == at[0]
    {
      NoBeginInside(n, s, contents[0], at[0], i);
    }
    assert at == [at[0]] + at[1..];
    assert at[0] < later;
  }

  lemma {:induction false} NoTagInEnd(n: string, s: string, e: int, i: int)
    requires Plain(n) && Occurs(End(n), s, e) && e < i < e + |End(n)|
    ensures 0 <= i < |s| && s[i] != '<'
  {
    MarkerTail(n);
    hide End;
    OccursAtHead(End(n), s, e);
    assert s[i] == s[e + (i - e)];
  }

  /** From a section's begin marker to the end of its end marker there is no other begin marker. */
  lemma {:induction false} NoBeginInside(n: string, s: string, content: string, b: int, i: int)
    requires Marked(n, s, content, b) && Occurs(Begin(n), s, i) && b <= i < EndOf(n, content, b) + |End(n)|
    ensures i == b
  {
    var e := EndOf(n, content, b);
    MarkerTail(n);
    IsAMarker(n);
    if b < i < e {
      NoneInside(Begin(n), n, s, content, b, i);
    } else if i == e {
      BeginNotEndAt(n, s, i);
    } else if i > e {
      NoTagInEnd(n, s, e, i);
      OccursAtHead(Begin(n), s, i);
    }
  }

  // ---------------------------------------------------------------- prompts

  lemma {:induction false} ShowIsMarked(n: string, ss: seq<Section>, rest: string, k: nat)
    requires k < |ss|
    ensures var (b, at) := (Body(n, ss, rest), MarkerAt(Begin(n), n, ss, k));
            var inside := at + |Begin(n)|;
            && 0 < at && inside + |ss[k].content| + 2 <= |b| && b[at - 1] == '\n'
            && b[inside..inside + |ss[k].content| + 2] == ['\n'] + ss[k].content + ['\n']
  {
    hide Show, Begin, End;
    var later := Body(n, ss[1..], rest);
    var b, len, c := Body(n, ss, rest), ShowLength(n, ss[0]), |ss[k].content| + 2;
    ShowHasLength(n, ss[0], later);
    if k > 0 {
      ShowIsMarked(n, ss[1..], rest, k - 1);
      var at := MarkerAt(Begin(n), n, ss[1..], k - 1);
      var inside := at + |Begin(n)|;
      assert b[len..] == later;
      assert b[len + at - 1] == later[at - 1];
      assert b[len + inside..len + inside + c] == later[inside..inside + c];
    } else {
      ShowHasContent(n, ss[0], later);
    }
  }

  lemma {:induction false} ShowHasContent(n: string, s: Section, rest: string)
    ensures var inside, t := |s.path| + 15 + |Begin(n)|, Show(n, s, rest);
            && inside + |s.content| + 2 <= |t| && t[|s.path| + 14] == '\n'
            && t[inside..inside + |s.content| + 2] == ['\n'] + s.content + ['\n']
  {
    hide Begin, End;
    var t := Show(n, s, rest);
    var before := "<file path=" + ['"'] + s.path + ['"'] + ">" + ['\n'];
    var after := End(n) + ['\n'] + ("</file>" + ['\n'] + rest);
    assert t == before + Begin(n) + (['\n'] + s.content + ['\n']) + after;
    assert |before| == |s.path| + 15 && before[|s.path| + 14] == '\n';
  }

  function Contents(ss: seq<Section>): (cs: seq<string>)
    ensures |cs| == |ss| && forall k | 0 <= k < |cs| :: cs[k] == ss[k].content
  {
    if ss == [] then [] else [ss[0].content] + Contents(ss[1..])
  }

  function Begins(n: string, lead: string, ss: seq<Section>): (at: seq<int>)
    ensures |at| == |ss| && forall k | 0 <= k < |at| :: at[k] == |lead| + MarkerAt(Begin(n), n, ss, k)
  {
    seq(|ss|, k requires 0 <= k < |ss| => |lead| + MarkerAt(Begin(n), n, ss, k))
  }

  lemma {:induction false} SliceAfter(lead: string, body: string, i: nat, j: nat)
    requires i <= j <= |body|
    ensures (lead + body)[|lead| + i..|lead| + j] == body[i..j]
    ensures i < |body| ==> (lead + body)[|lead| + i] == body[i]
  {
  }

  lemma {:induction false} SectionIsMarked(n: string, s: string, lead: string, ss: seq<Section>, end: string, k: nat)
    requires IsPrompt(n, s, lead, ss, end) && k < |ss|
    ensures var b := |lead| + MarkerAt(Begin(n), n, ss, k);
            Marked(n, s, ss[k].content, b) && EndOf(n, ss[k].content, b) == |lead| + MarkerAt(End(n), n, ss, k)
  {
    hide Body, MarkerAt, Occurs, Begin, End, Leads, MarkerFree;
    BeginIsNotEnd(n);
    MarkersAreSlots(n, s, lead, ss, end, Begin(n));
    MarkersAreSlots(n, s, lead, ss, end, End(n));
    SlotsInOrder(n, ss, k);
    ShowIsMarked(n, ss, end, k);
    var body, at, c := Body(n, ss, end), MarkerAt(Begin(n), n, ss, k), |ss[k].content| + 2;
    var inside := at + |Begin(n)|;
    SliceAfter(lead, body, at - 1, at);
    SliceAfter(lead, body, inside, inside + c);
  }

  lemma {:induction false} PathBefore(n: string, ss: seq<Section>, k: nat)
    requires k < |ss|
    ensures PathAt(n, ss, k) + |ss[k].path| + 3 == MarkerAt(Begin(n), n, ss, k)
  {
    hide Begin;
    if k > 0 {
      PathBefore(n, ss[1..], k - 1);
    }
  }

  lemma {:induction false} LastSlot(n: string, ss: seq<Section>, k: nat)
    requires k < |ss|
    ensures MarkerAt(Begin(n), n, ss, k) <= MarkerAt(Begin(n), n, ss, |ss| - 1)
  {
    hide Begin, MarkerAt;
    if k < |ss| - 1 {
      BeginIsNotEnd(n);
      SlotsGrow(Begin(n), n, ss, k, |ss| - 1);
    }
  }

  /** The last begin marker is the last section's. */
  lemma {:induction false} BeginsEnd(n: string, s: string, lead: string, ss: seq<Section>, end: string, i: int)
    requires IsPrompt(n, s, lead, ss, end) && Occurs(Begin(n), s, i)
    ensures ss != [] && i <= |lead| + MarkerAt(Begin(n), n, ss, |ss| - 1)
  {
    hide Body, MarkerAt, PathAt, Occurs, Begin, Leads;
    BeginIsNotEnd(n);
    LeadsAt(n, lead, Body(n, ss, end), Begin(n), i);
    OccursInBody(Begin(n), n, ss, end, i - |lead|);
    if IsSlot(Begin(n), n, ss, i - |lead|) {
      var k: nat :| k < |ss| && MarkerAt(Begin(n), n, ss, k) == i - |lead|;
      LastSlot(n, ss, k);
    } else {
      InPathIsBefore(n, ss, i - |lead|);
    }
  }

  lemma {:induction false} InPathIsBefore(n: string, ss: seq<Section>, i: int)
    requires IsInPath(Begin(n), n, ss, i)
    ensures ss != [] && i <= MarkerAt(Begin(n), n, ss, |ss| - 1)
  {
    hide MarkerAt, PathAt, Occurs, Begin;
    var k: nat :| k < |ss| && Occurs(Begin(n), ss[k].path, i - PathAt(n, ss, k));
    InBounds(Begin(n), ss[k].path, i - PathAt(n, ss, k));
    PathBefore(n, ss, k);
    LastSlot(n, ss, k);
  }

  lemma {:induction false} PromptIsMarked(n: string, s: string, lead: string, ss: seq<Section>, end: string)
    requires IsPrompt(n, s, lead, ss, end)
    ensures AllMarked(n, s, Contents(ss), Begins(n, lead, ss))
  {
    hide IsPrompt, Marked, MarkerAt, Occurs, Begin, End, EndOf;
    var at := Begins(n, lead, ss);
    forall k | 0 <= k < |at|
      ensures Marked(n, s, Contents(ss)[k], at[k])
      ensures k < |at| - 1 ==> EndOf(n, Contents(ss)[k], at[k]) + |End(n)| <= at[k + 1]
    {
      SectionIsMarked(n, s, lead, ss, end, k);
      SlotsInOrder(n, ss, k);
    }
    forall i | Occurs(Begin(n), s, i)
      ensures |at| > 0 && i <= at[|at| - 1]
    {
      BeginsEnd(n, s, lead, ss, end, i);
    }
  }

  /** Searching a prompt for its markers yields exactly its sections' contents if and only if no printed path
      contains a begin marker. An end marker in a path does no harm. */
  lemma {:induction false} RecoverPrompt(n: string, s: string, lead: string, ss: seq<Section>, end: string)
    requires IsPrompt(n, s, lead, ss, end) && forall x <- ss :: Base64.Decode(x.content).Some?
    ensures Recover(n, s, 0) == Decoded(Contents(ss)) <==> forall x <- ss :: !Contains(x.path, Begin(n))
  {
    hide IsPrompt, MarkerAt, Occurs, Begin, End, First, Recover, Contains, AllMarked, Base64.Decode;
    BeginIsNotEnd(n);
    PromptIsMarked(n, s, lead, ss, end);
    MarkersAreSlots(n, s, lead, ss, end, Begin(n));
    var at := Begins(n, lead, ss);
    FirstSpec(Begin(n), s, 0);
    StartsAfter(n, s, lead, ss, end);
    RecoverExact(n, s, Contents(ss), at, 0);
    OnlySlots(n, s, lead, ss);
  }

  lemma {:induction false} StartsAfter(n: string, s: string, lead: string, ss: seq<Section>, end: string)
    requires IsPrompt(n, s, lead, ss, end)
    ensures ss == [] ==> First(Begin(n), s, 0).None?
  {
    hide IsPrompt, Occurs, Begin;
    if ss == [] && First(Begin(n), s, 0).Some? {
      BeginsEnd(n, s, lead, ss, end, First(Begin(n), s, 0).value);
    }
  }

  lemma {:induction false} OnlySlots(n: string, s: string, lead: string, ss: seq<Section>)
    ensures OnlyAt(n, s, Begins(n, lead, ss), 0) <==> OnlyInSlots(Begin(n), n, s, lead, ss)
  {
    hide MarkerAt, Begin;
    var at := Begins(n, lead, ss);
    forall i
      ensures i in at <==> IsSlot(Begin(n), n, ss, i - |lead|)
    {
      if IsSlot(Begin(n), n, ss, i - |lead|) {
        var k: nat :| k < |ss| && MarkerAt(Begin(n), n, ss, k) == i - |lead|;
        assert at[k] == i;
      }
    }
  }

  /** Every file's bytes, in order. */
  function AllBytes(frames: seq<Frame>): (r: seq<Option<seq<byte>>>)
    ensures |r| == |frames| && forall k | 0 <= k < |r| :: r[k] == Some(frames[k].bytes)
  {
    if frames == [] then [] else [Some(frames[0].bytes)] + AllBytes(frames[1..])
  }

  /** Plain string search recovers every file's bytes from the assembled prompt, in order and nothing else, if
      and only if no path contains a begin marker. */
  lemma {:induction false} PromptRecovers(nonce: seq<byte>, frames: seq<Frame>)
    ensures Recover(Hex(nonce), PromptText(nonce, frames), 0)
         == AllBytes(frames)
       <==> forall f <- frames :: !Contains(f.relativePath, Begin(Hex(nonce)))
  {
    hide PromptText, Contains, Opening, Hex, IsPrompt, Recover, Escape, Begin, End, Base64.Encode, Base64.Decode;
    var n, ss := Hex(nonce), Sections(frames);
    HexIsPlain(nonce);
    BeginIsNotEnd(n);
    AssembledIsPrompt(nonce, frames);
    EscapedPaths(frames, n, Begin(n));
    AllDecode(frames, ss);
    RecoverPrompt(n, PromptText(nonce, frames), Lead(nonce), ss, Closing(n));
  }

  lemma {:induction false} AllDecode(frames: seq<Frame>, ss: seq<Section>)
    requires |ss| == |frames| && forall k | 0 <= k < |ss| :: ss[k].content == Base64.Encode(frames[k].bytes)
    ensures forall x <- ss :: Base64.Decode(x.content).Some?
    ensures Decoded(Contents(ss)) == AllBytes(frames)
  {
    hide Base64.Encode, Base64.Decode;
    forall k | 0 <= k < |frames|
      ensures Base64.Decode(ss[k].content) == Some(frames[k].bytes)
    {
      Base64.DecodeEncode(frames[k].bytes);
    }
  }
}
