/** The directory walk under its limits: what it finds, and when its limits hold. */
module Walk {
  import opened Bytes
  import opened Wire

  /** A file tree as the walk meets it. `Absent` stands for a path whose metadata or listing cannot be
      read, `Other` for what is neither link, directory nor file. */
  datatype Node =
    | Symlink
    | Dir(children: seq<Child>)
    | File(size: u64, openable: bool)
    | Other
    | Absent

  datatype Child = Child(name: string, node: Node)

  type Path = seq<string>

  datatype WalkLimits = WalkLimits(maxFiles: u64, maxBytesPerFile: u64, maxTotalBytes: u64)

  const DEFAULT_LIMITS := WalkLimits(10_000, 16 * 1024 * 1024, 256 * 1024 * 1024)

  /** A file to be read: its path relative to the root, and its size when it was walked. */
  datatype Found = Found(relative: Path, size: u64)

  datatype WalkError = MaxFiles | FileSize | MaxTotalBytes | Resolve | Io

  // ---------------------------------------------------------------- the walk as a list of visits

  /** What the recursive walk does, in order: it checks the file count before each directory entry, and
      it checks, opens and records each regular file. */
  datatype Visit = Count | Regular(path: Path, size: u64, openable: bool) | Broken

  function Visits(n: Node, path: Path): seq<Visit>
    decreases n, 1
  {
    match n
    case Symlink => []
    case Dir(children) => VisitsOf(children, path)
    case File(size, openable) => [Regular(path, size, openable)]
    case Other => []
    case Absent => [Broken]
  }

  function VisitsOf(children: seq<Child>, path: Path): seq<Visit>
    decreases children, 0
  {
    if children == [] then []
    else [Count] + Visits(children[0].node, path + [children[0].name]) + VisitsOf(children[1..], path)
  }

  datatype Progress = Progress(out: seq<Found>, total: u64, error: Option<WalkError>)

  function Act(p: Progress, v: Visit, limits: WalkLimits): Progress {
    if p.error.Some? then p
    else match v
      case Count => if |p.out| >= limits.maxFiles then p.(error := Some(MaxFiles)) else p
      case Broken => p.(error := Some(Io))
      case Regular(path, size, openable) =>
        if size > limits.maxBytesPerFile then p.(error := Some(FileSize)) else
        var total: u64 := (p.total + size) % 0x1_0000_0000_0000_0000;
        if total > limits.maxTotalBytes then p.(total := total, error := Some(MaxTotalBytes))
        else if !openable then p.(total := total, error := Some(Resolve))
        else Progress(p.out + [Found(path, size)], total, None)
  }

  function ActAll(p: Progress, vs: seq<Visit>, limits: WalkLimits): Progress
    decreases |vs|
  {
    if vs == [] then p else ActAll(Act(p, vs[0], limits), vs[1..], limits)
  }

  lemma {:induction false} ActAllConcat(p: Progress, a: seq<Visit>, b: seq<Visit>, limits: WalkLimits)
    ensures ActAll(p, a + b, limits) == ActAll(ActAll(p, a, limits), b, limits)
    decreases |a|
  {
    if a == [] {
      assert a + b == b;
    } else {
      assert (a + b)[1..] == a[1..] + b;
      ActAllConcat(Act(p, a[0], limits), a[1..], b, limits);
    }
  }

  lemma {:induction false} ErrorStays(p: Progress, vs: seq<Visit>, limits: WalkLimits)
    requires p.error.Some?
    ensures ActAll(p, vs, limits) == p
    decreases |vs|
  {
    if vs != [] {
      ErrorStays(p, vs[1..], limits);
    }
  }

  /** The walk's accumulators. */
  class Walker {
    var out: seq<Found>
    var total: u64

    constructor ()
      ensures out == [] && total == 0
    {
      out, total := [], 0;
    }

    ghost function State(error: Option<WalkError>): Progress
      reads this
    {
      Progress(out, total, error)
    }

    method WalkInner(n: Node, path: Path, limits: WalkLimits) returns (error: Option<WalkError>)
      modifies this
      ensures State(error) == ActAll(old(State(None)), Visits(n, path), limits)
      decreases n, 1
    {
      match n {
        case Symlink => error := None;
        case Other => error := None;
        case Absent => error := Some(Io);
        case Dir(children) =>
          error := WalkChildren(children, path, limits);
        case File(size, openable) =>
          if size > limits.maxBytesPerFile {
            return Some(FileSize);
          }
          total := (total + size) % 0x1_0000_0000_0000_0000;
          if total > limits.maxTotalBytes {
            return Some(MaxTotalBytes);
          }
          if !openable {
            return Some(Resolve);
          }
          out := out + [Found(path, size)];
          error := None;
      }
    }

    /** The loop over a directory's entries. */
    method WalkChildren(children: seq<Child>, path: Path, limits: WalkLimits) returns (error: Option<WalkError>)
      modifies this
      ensures State(error) == ActAll(old(State(None)), VisitsOf(children, path), limits)
      decreases children, 0
    {
      hide Visits;
      error := None;
      var i := 0;
      while i < |children|
        invariant i <= |children| && error == None
        invariant ActAll(old(State(None)), VisitsOf(children, path), limits)
               == ActAll(State(None), VisitsOf(children[i..], path), limits)
      {
        var c := children[i];
        assert children[i..][0] == c && children[i..][1..] == children[i + 1..];
        ghost var before := State(None);
        ghost var sub, later := Visits(c.node, path + [c.name]), VisitsOf(children[i + 1..], path);
        NextChild(before, sub, later, limits);
        if |out| >= limits.maxFiles {
          return Some(MaxFiles);
        }
        error := WalkInner(c.node, path + [c.name], limits);
        if error.Some? {
          ErrorStays(State(error), later, limits);
          return;
        }
        i := i + 1;
      }
      assert children[i..] == [];
    }
  }

  lemma {:induction false} NextChild(p: Progress, sub: seq<Visit>, later: seq<Visit>, limits: WalkLimits)
    ensures ActAll(p, [Count] + sub + later, limits)
         == ActAll(ActAll(Act(p, Count, limits), sub, limits), later, limits)
    ensures Act(p, Count, limits).error.Some? ==>
              ActAll(p, [Count] + sub + later, limits) == Act(p, Count, limits)
  {
    assert [Count] + sub + later == [Count] + (sub + later);
    assert ([Count] + (sub + later))[1..] == sub + later;
    ActAllConcat(Act(p, Count, limits), sub, later, limits);
    if Act(p, Count, limits).error.Some? {
      ErrorStays(Act(p, Count, limits), sub + later, limits);
    }
  }

  /** The path recorded for a root that is itself a file: its name. */
  function RootPath(root: Child): Path {
    if root.node.Dir? then [] else [root.name]
  }

  function WalkSpec(root: Child, limits: WalkLimits): Progress {
    ActAll(Progress([], 0, None), Visits(root.node, RootPath(root)), limits)
  }

  method WalkTree(root: Child, limits: WalkLimits) returns (r: Result<seq<Found>, WalkError>)
    ensures var p := WalkSpec(root, limits);
            r == if p.error.Some? then Err(p.error.value) else Ok(p.out)
  {
    var w := new Walker();
    var error := w.WalkInner(root.node, RootPath(root), limits);
    r := if error.Some? then Err(error.value) else Ok(w.out);
  }

  // ---------------------------------------------------------------- what a walk finds

  /** The regular files reachable without following a symbolic link, in traversal order. */
  function Files(n: Node, path: Path): seq<Found>
    decreases n, 1
  {
    match n
    case Dir(children) => FilesOf(children, path)
    case File(size, _) => [Found(path, size)]
    case _ => []
  }

  function FilesOf(children: seq<Child>, path: Path): seq<Found>
    decreases children, 0
  {
    if children == [] then []
    else Files(children[0].node, path + [children[0].name]) + FilesOf(children[1..], path)
  }

  function Recorded(vs: seq<Visit>): seq<Found> {
    if vs == [] then []
    else (if vs[0].Regular? then [Found(vs[0].path, vs[0].size)] else []) + Recorded(vs[1..])
  }

  lemma {:induction false} RecordedConcat(a: seq<Visit>, b: seq<Visit>)
    ensures Recorded(a + b) == Recorded(a) + Recorded(b)
  {
    if a == [] {
      assert a + b == b;
    } else {
      RecordedConcat(a[1..], b);
      assert (a + b)[0] == a[0] && (a + b)[1..] == a[1..] + b;
      var head := if a[0].Regular? then [Found(a[0].path, a[0].size)] else [];
      assert Recorded(a + b) == head + Recorded(a[1..] + b);
      assert head + (Recorded(a[1..]) + Recorded(b)) == head + Recorded(a[1..]) + Recorded(b);
    }
  }

  lemma {:induction false} VisitsRecordFiles(n: Node, path: Path)
    ensures Recorded(Visits(n, path)) == Files(n, path)
    decreases n, 1
  {
    if n.Dir? {
      VisitsOfRecordFiles(n.children, path);
    } else if n.File? {
      assert Visits(n, path)[1..] == [];
    }
  }

  lemma {:induction false} VisitsOfRecordFiles(children: seq<Child>, path: Path)
    ensures Recorded(VisitsOf(children, path)) == FilesOf(children, path)
    decreases children, 0
  {
    if children != [] {
      var sub := Visits(children[0].node, path + [children[0].name]);
      var later := VisitsOf(children[1..], path);
      assert VisitsOf(children, path) == [Count] + (sub + later);
      assert ([Count] + (sub + later))[1..] == sub + later;
      RecordedConcat(sub, later);
      VisitsRecordFiles(children[0].node, path + [children[0].name]);
      VisitsOfRecordFiles(children[1..], path);
    }
  }

  function TotalSize(fs: seq<Found>): nat {
    if fs == [] then 0 else fs[0].size + TotalSize(fs[1..])
  }

  lemma {:induction false} TotalSizeConcat(a: seq<Found>, b: seq<Found>)
    ensures TotalSize(a + b) == TotalSize(a) + TotalSize(b)
  {
    if a == [] {
      assert a + b == b;
    } else {
      assert (a + b)[1..] == a[1..] + b;
      TotalSizeConcat(a[1..], b);
    }
  }

  /** A 64-bit total wraps at this value. */
  const WORD: nat := 0x1_0000_0000_0000_0000

  /** A visit passes its check, given the files found before it. */
  ghost predicate PassesOne(v: Visit, before: seq<Found>, limits: WalkLimits) {
    match v
    case Count => |before| < limits.maxFiles
    case Broken => false
    case Regular(_, size, openable) =>
      size <= limits.maxBytesPerFile && openable && (TotalSize(before) + size) % WORD <= limits.maxTotalBytes
  }

  ghost predicate Passes(vs: seq<Visit>, before: seq<Found>, limits: WalkLimits) {
    forall k | 0 <= k < |vs| :: PassesOne(vs[k], before + Recorded(vs[..k]), limits)
  }

  lemma {:induction false} PassesStep(v: Visit, vs: seq<Visit>, before: seq<Found>, limits: WalkLimits)
    ensures Passes([v] + vs, before, limits) <==>
            PassesOne(v, before, limits) && Passes(vs, before + Recorded([v]), limits)
  {
    hide PassesOne, Recorded;
    var all, next := [v] + vs, before + Recorded([v]);
    assert before + Recorded(all[..0]) == before by {
      NothingRecorded(before);
    }
    forall k | 0 <= k < |vs|
      ensures all[k + 1] == vs[k] && before + Recorded(all[..k + 1]) == next + Recorded(vs[..k])
    {
      assert all[..k + 1] == [v] + vs[..k];
      RecordedConcat([v], vs[..k]);
    }
    if Passes(all, before, limits) {
      assert PassesOne(all[0], before + Recorded(all[..0]), limits);
      forall k | 0 <= k < |vs|
        ensures PassesOne(vs[k], next + Recorded(vs[..k]), limits)
      {
        assert PassesOne(all[k + 1], before + Recorded(all[..k + 1]), limits);
      }
    }
    if PassesOne(v, before, limits) && Passes(vs, next, limits) {
      forall k | 0 <= k < |all|
        ensures PassesOne(all[k], before + Recorded(all[..k]), limits)
      {
        if k > 0 {
          assert PassesOne(vs[k - 1], next + Recorded(vs[..k - 1]), limits);
        }
      }
    }
  }

  lemma {:induction false} NothingRecorded(before: seq<Found>)
    ensures before + Recorded([]) == before
  {
  }

  lemma {:induction false} NothingFails(before: seq<Found>, limits: WalkLimits)
    ensures Passes([], before, limits)
  {
  }

  lemma {:induction false} ModAdd(a: nat, b: nat)
    ensures (a % WORD + b) % WORD == (a + b) % WORD
  {
  }

  /** A walk succeeds exactly when every visit passes; then it has found exactly the recorded files, and
      its total is theirs, as far as 64 bits can hold it. */
  lemma {:induction false} WalkOutcome(p: Progress, vs: seq<Visit>, limits: WalkLimits)
    requires p.error.None? && p.total == TotalSize(p.out) % WORD && p.total <= limits.maxTotalBytes
    ensures var q := ActAll(p, vs, limits);
            && (q.error.None? <==> Passes(vs, p.out, limits))
            && (q.error.None? ==>
                  && q.out == p.out + Recorded(vs)
                  && q.total == TotalSize(q.out) % WORD && q.total <= limits.maxTotalBytes)
    decreases |vs|
  {
    hide Passes, PassesOne, Act, TotalSize, Recorded;
    if vs == [] {
      NothingRecorded(p.out);
      NothingFails(p.out, limits);
    } else {
      var q := Act(p, vs[0], limits);
      assert vs == [vs[0]] + vs[1..];
      PassesStep(vs[0], vs[1..], p.out, limits);
      ActOutcome(p, vs[0], limits);
      if q.error.None? {
        WalkOutcome(q, vs[1..], limits);
        RecordedConcat([vs[0]], vs[1..]);
        assert p.out + Recorded([vs[0]]) + Recorded(vs[1..]) == p.out + (Recorded([vs[0]]) + Recorded(vs[1..]));
      } else {
        ErrorStays(q, vs[1..], limits);
      }
    }
  }

  lemma {:induction false} ActOutcome(p: Progress, v: Visit, limits: WalkLimits)
    requires p.error.None? && p.total == TotalSize(p.out) % WORD && p.total <= limits.maxTotalBytes
    ensures var q := Act(p, v, limits);
            && (q.error.None? <==> PassesOne(v, p.out, limits))
            && (q.error.None? ==>
                  && q.out == p.out + Recorded([v])
                  && q.total == TotalSize(q.out) % WORD && q.total <= limits.maxTotalBytes)
  {
    assert [v][1..] == [];
    TotalSizeConcat(p.out, Recorded([v]));
    assert p.out + [] == p.out;
    if v.Regular? {
      ModAdd(TotalSize(p.out), v.size);
    }
  }

  /** The walk of any tree, under any limits: it succeeds exactly when every visit passes its check in turn,
      and then returns exactly the regular files reachable without symbolic links, in traversal order, each
      within the per-file limit, and their 64-bit total within the total limit; from a directory, also within
      the count. */
  lemma {:induction false} WalkIsComplete(root: Child, limits: WalkLimits)
    ensures var p, path := WalkSpec(root, limits), RootPath(root);
            && (p.error.None? <==> Passes(Visits(root.node, path), [], limits))
            && (p.error.None? ==>
                  && p.out == Files(root.node, path)
                  && p.total == TotalSize(p.out) % WORD && p.total <= limits.maxTotalBytes
                  && (forall f <- p.out :: f.size <= limits.maxBytesPerFile)
                  && (root.node.Dir? ==> |p.out| <= limits.maxFiles))
  {
    hide Passes;
    var vs := Visits(root.node, RootPath(root));
    WalkOutcome(Progress([], 0, None), vs, limits);
    VisitsRecordFiles(root.node, RootPath(root));
    assert [] + Recorded(vs) == Recorded(vs);
    if Passes(vs, [], limits) {
      RecordedWithin(vs, limits);
      if root.node.Dir? {
        CountedBeforeRecorded(root.node.children, RootPath(root));
        WithinCount(vs, limits);
      }
    }
  }

  lemma {:induction false} RecordedAt(vs: seq<Visit>, f: Found)
    requires f in Recorded(vs)
    ensures exists k | 0 <= k < |vs| :: vs[k].Regular? && Found(vs[k].path, vs[k].size) == f
  {
    if vs[0].Regular? && Found(vs[0].path, vs[0].size) == f {
      assert vs[0].Regular?;
    } else {
      RecordedAt(vs[1..], f);
      var k :| 0 <= k < |vs[1..]| && vs[1..][k].Regular? && Found(vs[1..][k].path, vs[1..][k].size) == f;
      assert vs[k + 1] == vs[1..][k];
    }
  }

  lemma {:induction false} RecordedWithin(vs: seq<Visit>, limits: WalkLimits)
    requires Passes(vs, [], limits)
    ensures forall f <- Recorded(vs) :: f.size <= limits.maxBytesPerFile
  {
    forall f <- Recorded(vs)
      ensures f.size <= limits.maxBytesPerFile
    {
      RecordedAt(vs, f);
      var k :| 0 <= k < |vs| && vs[k].Regular? && Found(vs[k].path, vs[k].size) == f;
      assert PassesOne(vs[k], [] + Recorded(vs[..k]), limits);
    }
  }

  /** Before each file of a directory's walk there is a count check with no file in between. */
  ghost predicate Guarded(vs: seq<Visit>) {
    forall k | 0 <= k < |vs| && vs[k].Regular? :: k > 0 && vs[k - 1].Count?
  }

  lemma {:induction false} CountedBeforeRecorded(children: seq<Child>, path: Path)
    ensures Guarded(VisitsOf(children, path))
    decreases children, 0
  {
    if children != [] {
      var n := children[0].node;
      var sub := Visits(n, path + [children[0].name]);
      var later := VisitsOf(children[1..], path);
      if n.Dir? {
        CountedBeforeRecorded(n.children, path + [children[0].name]);
      }
      CountedBeforeRecorded(children[1..], path);
      var vs := VisitsOf(children, path);
      assert vs == [Count] + sub + later;
      forall k | 0 <= k < |vs| && vs[k].Regular?
        ensures k > 0 && vs[k - 1].Count?
      {
        if k > |sub| {
          assert vs[k] == later[k - 1 - |sub|];
        }
      }
    }
  }

  lemma {:induction false} RecordedLast(vs: seq<Visit>)
    ensures vs == [] ==> Recorded(vs) == []
    ensures vs != [] ==>
              var last := vs[|vs| - 1];
              |Recorded(vs)| == |Recorded(vs[..|vs| - 1])| + (if last.Regular? then 1 else 0)
  {
    if vs != [] {
      var front, last := vs[..|vs| - 1], vs[|vs| - 1];
      assert vs == front + [last];
      RecordedConcat(front, [last]);
      assert [last][1..] == [];
      assert |Recorded([last])| == if last.Regular? then 1 else 0;
    }
  }

  lemma {:induction false} RecordedIsShort(vs: seq<Visit>)
    ensures |Recorded(vs)| > 0 ==> exists k | 0 <= k < |vs| ::
              vs[k].Regular? && |Recorded(vs[..k])| == |Recorded(vs)| - 1
  {
    hide Recorded;
    RecordedLast(vs);
    if vs != [] {
      var front, last := vs[..|vs| - 1], vs[|vs| - 1];
      if last.Regular? {
        assert vs[..|vs| - 1] == front && vs[|vs| - 1].Regular?;
      } else {
        RecordedIsShort(front);
        if |Recorded(vs)| > 0 {
          var k :| 0 <= k < |front| && front[k].Regular? && |Recorded(front[..k])| == |Recorded(front)| - 1;
          assert front[..k] == vs[..k] && vs[k].Regular?;
        }
      }
    }
  }

  lemma {:induction false} WithinCount(vs: seq<Visit>, limits: WalkLimits)
    requires Passes(vs, [], limits) && Guarded(vs)
    ensures |Recorded(vs)| <= limits.maxFiles
  {
    RecordedIsShort(vs);
    if |Recorded(vs)| > 0 {
      var k :| 0 <= k < |vs| && vs[k].Regular? && |Recorded(vs[..k])| == |Recorded(vs)| - 1;
      assert vs[k - 1].Count? && PassesOne(vs[k - 1], [] + Recorded(vs[..k - 1]), limits);
      assert vs[..k] == vs[..k - 1] + [vs[k - 1]];
      RecordedConcat(vs[..k - 1], [vs[k - 1]]);
      assert [vs[k - 1]][1..] == [];
    }
  }

  // ---------------------------------------------------------------- why a walk fails

  /** What the visit that fails is refused for, given the files found before it. */
  predicate VisitFault(v: Visit, before: seq<Found>, limits: WalkLimits, e: WalkError) {
    match v
    case Count => |before| >= limits.maxFiles && e == MaxFiles
    case Broken => e == Io
    case Regular(_, size, openable) =>
      if size > limits.maxBytesPerFile then e == FileSize
      else if (TotalSize(before) + size) % WORD > limits.maxTotalBytes then e == MaxTotalBytes
      else !openable && e == Resolve
  }

  lemma {:induction false} ActBlames(p: Progress, v: Visit, limits: WalkLimits, e: WalkError)
    requires p.error.None? && p.total == TotalSize(p.out) % WORD
    ensures Act(p, v, limits).error == Some(e) <==> VisitFault(v, p.out, limits, e)
    ensures VisitFault(v, p.out, limits, e) ==> !PassesOne(v, p.out, limits)
  {
    hide TotalSize;
    if v.Regular? {
      ModAdd(TotalSize(p.out), v.size);
    }
  }

  /** The first visit at fault, all before it having passed. */
  ghost predicate FailsAt(vs: seq<Visit>, before: seq<Found>, limits: WalkLimits, k: nat, e: WalkError) {
    k < |vs| && Passes(vs[..k], before, limits) && VisitFault(vs[k], before + Recorded(vs[..k]), limits, e)
  }

  lemma {:induction false} RunBlames(p: Progress, vs: seq<Visit>, limits: WalkLimits, e: WalkError)
    requires p.error.None? && p.total == TotalSize(p.out) % WORD && p.total <= limits.maxTotalBytes
    ensures ActAll(p, vs, limits).error == Some(e) <==> exists k: nat :: FailsAt(vs, p.out, limits, k, e)
    decreases |vs|
  {
    hide Passes, PassesOne, Act, TotalSize, Recorded, VisitFault;
    if vs != [] {
      var v, later := vs[0], vs[1..];
      var q := Act(p, v, limits);
      ActBlames(p, v, limits, e);
      ActOutcome(p, v, limits);
      NothingRecorded(p.out);
      NothingFails(p.out, limits);
      assert vs[..0] == [];
      if q.error.Some? {
        ErrorStays(q, later, limits);
        assert VisitFault(v, p.out, limits, e) <==> FailsAt(vs, p.out, limits, 0, e);
        forall k: nat | 0 < k
          ensures !FailsAt(vs, p.out, limits, k, e)
        {
          FirstPasses(vs, p.out, limits, k);
        }
      } else {
        RunBlames(q, later, limits, e);
        forall k: nat
          ensures FailsAt(later, q.out, limits, k, e) <==> FailsAt(vs, p.out, limits, k + 1, e)
        {
          FailsLater(vs, p.out, limits, k, e);
        }
        assert forall k: nat | FailsAt(vs, p.out, limits, k, e) :: k > 0 && FailsAt(later, q.out, limits, k - 1, e);
      }
    }
  }

  lemma {:induction false} FirstPasses(vs: seq<Visit>, before: seq<Found>, limits: WalkLimits, k: nat)
    requires vs != []
    ensures 0 < k <= |vs| && Passes(vs[..k], before, limits) ==> PassesOne(vs[0], before, limits)
  {
    hide PassesOne, Recorded;
    NothingRecorded(before);
    if 0 < k <= |vs| && Passes(vs[..k], before, limits) {
      assert vs[..k][..0] == [] && PassesOne(vs[..k][0], before + Recorded(vs[..k][..0]), limits);
    }
  }

  lemma {:induction false} FailsLater(vs: seq<Visit>, before: seq<Found>, limits: WalkLimits, k: nat, e: WalkError)
    requires vs != [] && PassesOne(vs[0], before, limits)
    ensures FailsAt(vs[1..], before + Recorded([vs[0]]), limits, k, e) <==> FailsAt(vs, before, limits, k + 1, e)
  {
    hide Passes, PassesOne, Recorded, VisitFault;
    if k < |vs| - 1 {
      var (v, later) := (vs[0], vs[1..][..k]);
      assert vs[..k + 1] == [v] + later && vs[1..][k] == vs[k + 1];
      PassesStep(v, later, before, limits);
      RecordedConcat([v], later);
      assert before + Recorded([v]) + Recorded(later) == before + (Recorded([v]) + Recorded(later));
    }
  }

  /** Why a walk of any tree fails, under any limits: exactly for the fault of its first visit that has one. */
  lemma {:induction false} WalkBlames(root: Child, limits: WalkLimits, e: WalkError)
    ensures var vs := Visits(root.node, RootPath(root));
            WalkSpec(root, limits).error == Some(e) <==> exists k: nat :: FailsAt(vs, [], limits, k, e)
  {
    hide FailsAt;
    var p, vs := Progress([], 0, None), Visits(root.node, RootPath(root));
    assert TotalSize([]) == 0;
    RunBlames(p, vs, limits, e);
    assert WalkSpec(root, limits) == ActAll(p, vs, limits);
    assert vs == Visits(root.node, RootPath(root));
    if WalkSpec(root, limits).error == Some(e) {
      var k: nat :| FailsAt(vs, p.out, limits, k, e);
      assert FailsAt(vs, [], limits, k, e);
    }
    if k: nat :| FailsAt(vs, [], limits, k, e) {
      assert FailsAt(vs, p.out, limits, k, e);
      assert ActAll(p, vs, limits).error == Some(e);
    }
  }

  /** `m` is found in the tree of `n` by entering directories, along these names. */
  ghost predicate Reaches(n: Node, names: Path, m: Node)
    decreases |names|
  {
    if names == [] then n == m
    else n.Dir? && exists c <- n.children :: c.name == names[0] && Reaches(c.node, names[1..], m)
  }

  predicate VisitOf(v: Visit, path: Path, m: Node) {
    match v
    case Count => false
    case Regular(p, size, openable) => p == path && m == File(size, openable)
    case Broken => m == Absent
  }

  /** What the walk checks is what can be reached: each regular file, under its path, and each node that cannot
      be read. It enters directories alone; links and special files are passed over. */
  lemma {:induction false} VisitsAreReachable(n: Node, path: Path, v: Visit)
    requires !v.Count?
    ensures v in Visits(n, path) <==> exists rel, m :: Reaches(n, rel, m) && VisitOf(v, path + rel, m)
    decreases n, 1
  {
    hide VisitOf;
    if n.Dir? {
      EntriesAreReachable(n.children, path, v);
      forall rel, m | Reaches(n, rel, m) && VisitOf(v, path + rel, m)
        ensures exists c <- n.children, r :: Reaches(c.node, r, m) && VisitOf(v, path + [c.name] + r, m)
      {
        DirIsNoVisit(n, path, v);
        var c :| c in n.children && c.name == rel[0] && Reaches(c.node, rel[1..], m);
        assert path + [c.name] + rel[1..] == path + rel;
      }
      forall c, r, m | c in n.children && Reaches(c.node, r, m) && VisitOf(v, path + [c.name] + r, m)
        ensures exists rel :: Reaches(n, rel, m) && VisitOf(v, path + rel, m)
      {
        var rel := [c.name] + r;
        assert rel[1..] == r && path + [c.name] + r == path + rel;
      }
    } else {
      LeafIsVisited(n, path, v);
    }
  }

  lemma {:induction false} DirIsNoVisit(n: Node, path: Path, v: Visit)
    requires n.Dir?
    ensures !VisitOf(v, path + [], n)
  {
  }

  lemma {:induction false} LeafIsVisited(n: Node, path: Path, v: Visit)
    requires !n.Dir? && !v.Count?
    ensures v in Visits(n, path) <==> exists rel, m :: Reaches(n, rel, m) && VisitOf(v, path + rel, m)
  {
    assert path + [] == path;
    assert Reaches(n, [], n);
    assert forall rel, m | Reaches(n, rel, m) :: rel == [] && m == n;
    assert v in Visits(n, path) <==> VisitOf(v, path + [], n);
  }

  lemma {:induction false} EntriesAreReachable(children: seq<Child>, path: Path, v: Visit)
    requires !v.Count?
    ensures v in VisitsOf(children, path)
       <==> exists c <- children, r, m :: Reaches(c.node, r, m) && VisitOf(v, path + [c.name] + r, m)
    decreases children, 0
  {
    hide Reaches, VisitOf, Visits;
    if children != [] {
      var c := children[0];
      VisitsAreReachable(c.node, path + [c.name], v);
      EntriesAreReachable(children[1..], path, v);
      assert children == [c] + children[1..];
    }
  }

  /** The directory entries below a node, whatever they are. */
  function Entries(n: Node): nat
    decreases n, 1
  {
    if n.Dir? then |n.children| + EntriesBelow(n.children) else 0
  }

  function EntriesBelow(children: seq<Child>): nat
    decreases children, 0
  {
    if children == [] then 0 else Entries(children[0].node) + EntriesBelow(children[1..])
  }

  function Counts(vs: seq<Visit>): nat {
    if vs == [] then 0 else (if vs[0].Count? then 1 else 0) + Counts(vs[1..])
  }

  lemma {:induction false} CountsConcat(a: seq<Visit>, b: seq<Visit>)
    ensures Counts(a + b) == Counts(a) + Counts(b)
  {
    if a == [] {
      assert a + b == b;
    } else {
      assert (a + b)[1..] == a[1..] + b;
      CountsConcat(a[1..], b);
    }
  }

  /** The count is checked once for each directory entry, also for those that are passed over. */
  lemma {:induction false} EveryEntryIsCounted(n: Node, path: Path)
    ensures Counts(Visits(n, path)) == Entries(n)
    decreases n, 1
  {
    if n.Dir? {
      ChildrenAreCounted(n.children, path);
    } else {
      assert |Visits(n, path)| > 0 ==> Visits(n, path)[1..] == [];
    }
  }

  lemma {:induction false} ChildrenAreCounted(children: seq<Child>, path: Path)
    ensures Counts(VisitsOf(children, path)) == |children| + EntriesBelow(children)
    decreases children, 0
  {
    if children != [] {
      var sub, later := Visits(children[0].node, path + [children[0].name]), VisitsOf(children[1..], path);
      assert VisitsOf(children, path) == [Count] + (sub + later) && ([Count] + (sub + later))[1..] == sub + later;
      CountsConcat(sub, later);
      EveryEntryIsCounted(children[0].node, path + [children[0].name]);
      ChildrenAreCounted(children[1..], path);
    }
  }

  /** The count limit binds directories only: a root that is a single file is walked even when no file is
      allowed. */
  lemma {:induction false} SingleFileIgnoresCount(name: string, size: u64, limits: WalkLimits)
    ensures var p := WalkSpec(Child(name, File(size, true)), limits);
            p.error.None? <==> size <= limits.maxBytesPerFile && size <= limits.maxTotalBytes
    ensures WalkSpec(Child(name, File(size, true)), limits).error.None? ==>
              WalkSpec(Child(name, File(size, true)), limits).out == [Found([name], size)]
  {
    var v := Regular([name], size, true);
    assert [v][1..] == [];
    var start := Progress([], 0, None);
    assert [] + [Found([name], size)] == [Found([name], size)];
    assert ActAll(start, [v], limits) == ActAll(Act(start, v, limits), [], limits);
    assert Visits(File(size, true), [name]) == [v];
  }

  // ---------------------------------------------------------------- when the total limit holds

  /** The largest total at which one more file can still be let through. */
  function Reach(limits: WalkLimits): nat
    requires limits.maxFiles > 0
  {
    var counted := (limits.maxFiles - 1) * limits.maxBytesPerFile;
    if counted < limits.maxTotalBytes then counted else limits.maxTotalBytes
  }

  /** No further file can take the running total past 64 bits. */
  predicate NoWrap(limits: WalkLimits) {
    limits.maxFiles == 0 || Reach(limits) + limits.maxBytesPerFile < WORD
  }

  lemma {:induction false} TotalIsShort(fs: seq<Found>, most: nat)
    requires forall f <- fs :: f.size <= most
    ensures TotalSize(fs) <= |fs| * most
  {
    if fs != [] {
      TotalIsShort(fs[1..], most);
      assert |fs| * most == most + (|fs| - 1) * most;
    }
  }

  lemma {:induction false} TimesGrows(a: nat, b: nat, most: nat)
    requires a <= b
    ensures a * most <= b * most
  {
    assert b * most == a * most + (b - a) * most;
  }

  /** Along a walk whose visits pass, the true total stays within the limit if no file can make it wrap. */
  lemma {:induction false} PrefixBounded(vs: seq<Visit>, limits: WalkLimits, k: nat)
    requires Passes(vs, [], limits) && Guarded(vs) && NoWrap(limits) && k <= |vs|
    ensures TotalSize(Recorded(vs[..k])) <= limits.maxTotalBytes
  {
    hide Recorded, PassesOne;
    if k == 0 {
      NothingRecorded([]);
      assert [] + Recorded([]) == Recorded([]);
    } else {
      PrefixBounded(vs, limits, k - 1);
      var before, v := Recorded(vs[..k - 1]), vs[k - 1];
      assert vs[..k] == vs[..k - 1] + [v];
      RecordedConcat(vs[..k - 1], [v]);
      TotalSizeConcat(before, Recorded([v]));
      assert [] + before == before && PassesOne(v, [] + before, limits);
      OneRecorded(v);
      if v.Regular? {
        BeforeFile(vs, limits, k - 1);
        FileAdds(v, before, limits);
      }
    }
  }

  lemma {:induction false} OneRecorded(v: Visit)
    ensures TotalSize(Recorded([v])) == if v.Regular? then v.size else 0
  {
    assert [v][1..] == [];
  }

  lemma {:induction false} FileAdds(v: Visit, before: seq<Found>, limits: WalkLimits)
    requires v.Regular? && PassesOne(v, before, limits) && limits.maxFiles > 0 && NoWrap(limits)
    requires TotalSize(before) <= Reach(limits)
    ensures TotalSize(before) + v.size <= limits.maxTotalBytes
  {
    hide Reach;
  }

  lemma {:induction false} BeforeFile(vs: seq<Visit>, limits: WalkLimits, k: nat)
    requires Passes(vs, [], limits) && Guarded(vs) && k < |vs| && vs[k].Regular?
    requires TotalSize(Recorded(vs[..k])) <= limits.maxTotalBytes
    ensures limits.maxFiles > 0 && TotalSize(Recorded(vs[..k])) <= Reach(limits)
  {
    var before := Recorded(vs[..k]);
    assert vs[k - 1].Count? && PassesOne(vs[k - 1], [] + Recorded(vs[..k - 1]), limits);
    assert vs[..k] == vs[..k - 1] + [vs[k - 1]];
    RecordedConcat(vs[..k - 1], [vs[k - 1]]);
    assert [vs[k - 1]][1..] == [] && [] + Recorded(vs[..k - 1]) == before;
    forall f <- before
      ensures f.size <= limits.maxBytesPerFile
    {
      RecordedAt(vs[..k], f);
      var j :| 0 <= j < k && vs[..k][j].Regular? && Found(vs[..k][j].path, vs[..k][j].size) == f;
      assert PassesOne(vs[j], [] + Recorded(vs[..j]), limits);
    }
    TotalIsShort(before, limits.maxBytesPerFile);
    TimesGrows(|before|, limits.maxFiles - 1, limits.maxBytesPerFile);
  }

  lemma {:induction false} Bounded(root: Child, limits: WalkLimits)
    requires NoWrap(limits) && WalkSpec(root, limits).error.None?
    ensures TotalSize(WalkSpec(root, limits).out) <= limits.maxTotalBytes
  {
    hide Passes, NoWrap;
    WalkIsComplete(root, limits);
    VisitsRecordFiles(root.node, RootPath(root));
    var vs := Visits(root.node, RootPath(root));
    match root.node
    case Dir(children) =>
      CountedBeforeRecorded(children, RootPath(root));
      PrefixBounded(vs, limits, |vs|);
      assert vs[..|vs|] == vs;
    case File(size, _) =>
      OneRecorded(vs[0]);
      assert vs == [vs[0]];
    case _ =>
  }

  // ---------------------------------------------------------------- a tree that makes the total wrap

  function Flat(sizes: seq<u64>): seq<Child> {
    if sizes == [] then [] else [Child("", File(sizes[0], true))] + Flat(sizes[1..])
  }

  function Sum(sizes: seq<u64>): nat {
    if sizes == [] then 0 else sizes[0] + Sum(sizes[1..])
  }

  /** Files that the limits let through one after the other. */
  lemma {:induction false} FlatWalk(p: Progress, sizes: seq<u64>, more: seq<Child>, limits: WalkLimits)
    returns (q: Progress)
    requires p.error.None? && |p.out| + |sizes| <= limits.maxFiles && p.total + Sum(sizes) <= limits.maxTotalBytes
    requires p.total == TotalSize(p.out) && forall x <- sizes :: x <= limits.maxBytesPerFile
    ensures ActAll(p, VisitsOf(Flat(sizes) + more, []), limits) == ActAll(q, VisitsOf(more, []), limits)
    ensures q.error.None? && |q.out| == |p.out| + |sizes| && q.total == p.total + Sum(sizes) == TotalSize(q.out)
    decreases |sizes|
  {
    if sizes == [] {
      q := p;
      assert Flat(sizes) + more == more;
    } else {
      var next := Progress(p.out + [Found([""], sizes[0])], p.total + sizes[0], None);
      assert Flat(sizes) + more == [Child("", File(sizes[0], true))] + (Flat(sizes[1..]) + more);
      OneChild(p, "", sizes[0], Flat(sizes[1..]) + more, limits);
      assert sizes[0] in sizes && forall x <- sizes[1..] :: x in sizes;
      OneFile(p, sizes[0], limits);
      q := FlatWalk(next, sizes[1..], more, limits);
    }
  }

  lemma {:induction false} OneFile(p: Progress, size: u64, limits: WalkLimits)
    requires p.error.None? && |p.out| < limits.maxFiles && size <= limits.maxBytesPerFile
    requires p.total == TotalSize(p.out) && p.total + size <= limits.maxTotalBytes
    ensures var next := Progress(p.out + [Found([""], size)], p.total + size, None);
            && Act(Act(p, Count, limits), Regular([""], size, true), limits) == next
            && next.total == TotalSize(next.out)
  {
    TotalSizeConcat(p.out, [Found([""], size)]);
    assert [Found([""], size)][1..] == [];
    assert (p.total + size) % WORD == p.total + size;
  }

  lemma {:induction false} OneChild(p: Progress, name: string, size: u64, more: seq<Child>, limits: WalkLimits)
    ensures ActAll(p, VisitsOf([Child(name, File(size, true))] + more, []), limits)
         == ActAll(Act(Act(p, Count, limits), Regular([name], size, true), limits), VisitsOf(more, []), limits)
  {
    var f := File(size, true);
    var children := [Child(name, f)] + more;
    var v := Regular([name], size, true);
    assert children[1..] == more;
    var later := VisitsOf(more, []);
    assert [] + [name] == [name];
    assert Visits(f, [name]) == [v];
    NextChild(p, [v], later, limits);
    assert [v][1..] == [];
    assert ActAll(Act(p, Count, limits), [v], limits) == ActAll(Act(Act(p, Count, limits), v, limits), [], limits);
  }

  function Copies(n: nat, x: u64): (s: seq<u64>)
    ensures |s| == n && forall y <- s :: y == x
  {
    if n == 0 then [] else [x] + Copies(n - 1, x)
  }

  lemma {:induction false} SumCopies(n: nat, x: u64, last: seq<u64>)
    ensures Sum(Copies(n, x) + last) == n * x + Sum(last)
  {
    if n == 0 {
      assert Copies(0, x) + last == last;
    } else {
      SumCopies(n - 1, x, last);
      var later := Copies(n - 1, x) + last;
      assert Copies(n, x) + last == [x] + later && ([x] + later)[1..] == later;
      assert n * x == x + (n - 1) * x;
    }
  }

  /** File sizes that add up to exactly what can be reached with one file to go. */
  lemma {:induction false} FillUp(limits: WalkLimits) returns (sizes: seq<u64>)
    requires limits.maxFiles > 0 && limits.maxBytesPerFile > 0
    ensures Sum(sizes) == Reach(limits) && |sizes| < limits.maxFiles
    ensures forall x <- sizes :: x <= limits.maxBytesPerFile
  {
    var most, r := limits.maxBytesPerFile, Reach(limits);
    DivIsNat(r, most);
    var n, rest := r / most, r % most;
    var last: seq<u64> := if rest == 0 then [] else [rest];
    FewFiles(limits, n, rest);
    sizes := Copies(n, most) + last;
    SumCopies(n, most, last);
  }

  lemma {:induction false} DivIsNat(r: nat, d: nat)
    requires d > 0
    ensures 0 <= r / d && 0 <= r % d < d
  {
  }

  lemma {:induction false} FewFiles(limits: WalkLimits, n: nat, rest: nat)
    requires limits.maxFiles > 0 && limits.maxBytesPerFile > 0
    requires n == Reach(limits) / limits.maxBytesPerFile && rest == Reach(limits) % limits.maxBytesPerFile
    ensures n * limits.maxBytesPerFile + rest == Reach(limits)
    ensures n + (if rest > 0 then 1 else 0) < limits.maxFiles
  {
    var most, r, m := limits.maxBytesPerFile, Reach(limits), limits.maxFiles - 1;
    assert r == n * most + rest && r <= m * most;
    if n >= m {
      assert n * most == m * most + (n - m) * most;
      if n > m {
        TimesPositive(n - m, most);
      }
    }
  }

  lemma {:induction false} TimesPositive(a: nat, b: nat)
    requires a > 0 && b > 0
    ensures a * b > 0
  {
  }

  /** If some file could make the total wrap, there is a tree whose walk succeeds past the limit. */
  lemma {:induction false} Wraps(limits: WalkLimits) returns (root: Child)
    requires !NoWrap(limits)
    ensures WalkSpec(root, limits).error.None?
    ensures TotalSize(WalkSpec(root, limits).out) > limits.maxTotalBytes
  {
    var sizes := FillUp(limits);
    var last := Child("", File(limits.maxBytesPerFile, true));
    root := Child("", Dir(Flat(sizes) + [last]));
    var q := FlatWalk(Progress([], 0, None), sizes, [last], limits);
    OneChild(q, "", limits.maxBytesPerFile, [], limits);
    assert [last] + [] == [last];
    var v := Regular([""], limits.maxBytesPerFile, true);
    var done := Act(Act(q, Count, limits), v, limits);
    LastFile(q, v, limits);
    assert VisitsOf([], []) == [];
    assert ActAll(done, [], limits) == done;
  }

  lemma {:induction false} LastFile(q: Progress, v: Visit, limits: WalkLimits)
    requires v == Regular([""], limits.maxBytesPerFile, true) && q.error.None? && |q.out| < limits.maxFiles
    requires !NoWrap(limits) && q.total == TotalSize(q.out) == Reach(limits)
    ensures var done := Act(Act(q, Count, limits), v, limits);
            done.error.None? && TotalSize(done.out) > limits.maxTotalBytes
  {
    var f := Found([""], limits.maxBytesPerFile);
    TotalSizeConcat(q.out, [f]);
    assert [f][1..] == [];
    var sum := Reach(limits) + limits.maxBytesPerFile;
    assert sum % WORD == sum - WORD;
  }

  /** Exactly when the total limit holds: every successful walk stays within it, by the true sum of the sizes,
      if and only if no file that the other limits let through can take the running total past 64 bits. The
      default limits meet this with room to spare. */
  lemma {:induction false} WalkIsBounded(limits: WalkLimits)
    ensures NoWrap(limits)
       <==> forall root | WalkSpec(root, limits).error.None? ::
              TotalSize(WalkSpec(root, limits).out) <= limits.maxTotalBytes
    ensures NoWrap(DEFAULT_LIMITS)
  {
    hide WalkSpec, NoWrap;
    if NoWrap(limits) {
      forall root | WalkSpec(root, limits).error.None?
        ensures TotalSize(WalkSpec(root, limits).out) <= limits.maxTotalBytes
      {
        Bounded(root, limits);
      }
    } else {
      var root := Wraps(limits);
    }
    DefaultIsNoWrap();
  }

  lemma {:induction false} DefaultIsNoWrap()
    ensures NoWrap(DEFAULT_LIMITS)
  {
  }
}
