/** The IO boundary: the provenance-tagged model of host and reader, its proposition and its Boolean
    checker. */
module Boundary {
  import opened Bytes

  datatype Origin = FromFile | Constant | Derived(from: Origin)

  predicate IsTainted(o: Origin) {
    match o
    case FromFile => true
    case Constant => false
    case Derived(p) => IsTainted(p)
  }

  datatype Tagged = Tagged(bytes: seq<byte>, origin: Origin)

  predicate Tainted(b: Tagged) {
    IsTainted(b.origin)
  }

  /** One observable effect. `B` is the type of its byte strings: tagged in the model, plain in a
      recorded trace. */
  datatype Effect<B> =
    | OpenP(path: B)
    | ExecP(path: B, args: seq<B>, env: seq<(B, B)>)
    | ReadF(fd: int)
    | WriteF(fd: int, bytes: B)
    | NetConn(host: B, port: nat)

  type Trace = seq<Effect<Tagged>>

  const HOST_STDIN_SINK: int := 3
  const SANDBOX_REPORT: int := 5
  const ALLOWED_TAINTED_WRITES: seq<int> := [HOST_STDIN_SINK, SANDBOX_REPORT]

  // ---------------------------------------------------------------- the proposition and its checker

  /** No tainted path, no tainted program, argument or environment string, no network, and tainted writes
      only to the two sandbox pipes. */
  ghost predicate SatisfiesIOBoundary(t: Trace) {
    && (forall s <- t :: s.OpenP? ==> !Tainted(s.path))
    && (forall s <- t :: s.ExecP? ==>
          && !Tainted(s.path)
          && (forall b <- s.args :: !Tainted(b))
          && (forall kv <- s.env :: !Tainted(kv.0) && !Tainted(kv.1)))
    && (forall s <- t :: !s.NetConn?)
    && (forall s <- t :: s.WriteF? && Tainted(s.bytes) ==> s.fd in ALLOWED_TAINTED_WRITES)
  }

  function All<T>(p: T -> bool, s: seq<T>): bool {
    s == [] || (p(s[0]) && All(p, s[1..]))
  }

  function CheckEffect(s: Effect<Tagged>): bool {
    match s
    case OpenP(p) => !Tainted(p)
    case ExecP(p, a, e) =>
      !Tainted(p) && All(b => !Tainted(b), a)
      && All((kv: (Tagged, Tagged)) => !Tainted(kv.0) && !Tainted(kv.1), e)
    case ReadF(_) => true
    case WriteF(fd, b) => if Tainted(b) then fd in ALLOWED_TAINTED_WRITES else true
    case NetConn(_, _) => false
  }

  function CheckIOBoundary(t: Trace): bool {
    All(CheckEffect, t)
  }

  lemma {:induction false} AllIsForall<T(!new)>(p: T -> bool, s: seq<T>)
    ensures All(p, s) <==> forall x <- s :: p(x)
  {
    if s != [] {
      AllIsForall(p, s[1..]);
    }
  }

  /** The Boolean checker decides the proposition. The two sandbox pipes are descriptors 3 and 5. */
  lemma {:induction false} CheckerIsCorrect(t: Trace)
    ensures forall fd :: fd in ALLOWED_TAINTED_WRITES <==> fd == 3 || fd == 5
    ensures CheckIOBoundary(t) <==> SatisfiesIOBoundary(t)
  {
    AllIsForall(CheckEffect, t);
    forall s <- t
      ensures CheckEffect(s) <==> SatisfiesIOBoundary([s])
    {
      if s.ExecP? {
        AllIsForall(b => !Tainted(b), s.args);
        AllIsForall((kv: (Tagged, Tagged)) => !Tainted(kv.0) && !Tainted(kv.1), s.env);
      }
      assert s in [s];
    }
    BoundaryIsPointwise(t);
  }

  lemma {:induction false} BoundaryIsPointwise(t: Trace)
    ensures SatisfiesIOBoundary(t) <==> forall s <- t :: SatisfiesIOBoundary([s])
  {
    forall s <- t | SatisfiesIOBoundary(t)
      ensures SatisfiesIOBoundary([s])
    {
    }
    if forall s <- t :: SatisfiesIOBoundary([s]) {
      forall s <- t
        ensures s in [s] && SatisfiesIOBoundary([s])
      {
      }
    }
  }

  // ---------------------------------------------------------------- host and reader programs

  datatype HostStep =
    | OpenInput(path: Tagged)
    | ReadInput(fd: int)
    | SpawnChild(path: Tagged, argv: seq<Tagged>, env: seq<(Tagged, Tagged)>)
    | PipeBytes(bytes: Tagged)
    | ReadReport(fd: int)

  datatype ReaderStep =
    | ReadFrames
    | ExecInfer(path: Tagged)
    | WriteReport(bytes: Tagged)

  function HostEffect(s: HostStep): Effect<Tagged> {
    match s
    case OpenInput(p) => OpenP(p)
    case ReadInput(fd) => ReadF(fd)
    case SpawnChild(p, argv, env) => ExecP(p, argv, env)
    case PipeBytes(b) => WriteF(HOST_STDIN_SINK, b)
    case ReadReport(fd) => ReadF(fd)
  }

  function ReaderEffect(s: ReaderStep): Effect<Tagged> {
    match s
    case ReadFrames => ReadF(HOST_STDIN_SINK)
    case ExecInfer(p) => ExecP(p, [], [])
    case WriteReport(b) => WriteF(SANDBOX_REPORT, b)
  }

  function HostTrace(h: seq<HostStep>): (t: Trace)
    ensures |t| == |h| && forall k | 0 <= k < |h| :: t[k] == HostEffect(h[k])
  {
    if h == [] then [] else [HostEffect(h[0])] + HostTrace(h[1..])
  }

  function ReaderTrace(r: seq<ReaderStep>): (t: Trace)
    ensures |t| == |r| && forall k | 0 <= k < |r| :: t[k] == ReaderEffect(r[k])
  {
    if r == [] then [] else [ReaderEffect(r[0])] + ReaderTrace(r[1..])
  }

  /** What a recorder sees of the two programs: tainted or not, bytes leave the host on the reader's input,
      descriptor 3, and the reader on its report, descriptor 5; paths are opened and programs run as asked; and
      there is no other write, open or execution, and no connection. */
  lemma {:induction false} TracesShow(h: seq<HostStep>, r: seq<ReaderStep>, k: nat)
    ensures k < |h| ==>
              var e := HostTrace(h)[k];
              && (forall b :: h[k] == PipeBytes(b) <==> e == WriteF(3, b))
              && (forall p :: h[k] == OpenInput(p) <==> e == OpenP(p))
              && (forall p, a, env :: h[k] == SpawnChild(p, a, env) <==> e == ExecP(p, a, env))
              && (forall fd :: h[k] == ReadInput(fd) || h[k] == ReadReport(fd) <==> e == ReadF(fd))
              && !e.NetConn?
    ensures k < |r| ==>
              var e := ReaderTrace(r)[k];
              && (forall b :: r[k] == WriteReport(b) <==> e == WriteF(5, b))
              && (forall p :: r[k] == ExecInfer(p) <==> e == ExecP(p, [], []))
              && (r[k] == ReadFrames <==> e == ReadF(3)) && !e.OpenP? && !e.NetConn?
  {
  }

  /** The two correspondence conditions the Lean development assumes as axioms. */
  predicate HostCorresponds(h: seq<HostStep>) {
    forall s <- h ::
      && (s.OpenInput? ==> !Tainted(s.path))
      && (s.SpawnChild? ==>
            && !Tainted(s.path) && (forall b <- s.argv :: !Tainted(b))
            && (forall kv <- s.env :: !Tainted(kv.0) && !Tainted(kv.1)))
  }

  predicate ReaderCorresponds(r: seq<ReaderStep>) {
    forall s <- r :: s.ExecInfer? ==> !Tainted(s.path)
  }

  /** `c` is a merge of `a` and `b` that keeps the order of each. */
  predicate Interleaves(a: Trace, b: Trace, c: Trace)
    decreases |c|
  {
    if c == [] then a == [] && b == []
    else
      || (a != [] && a[0] == c[0] && Interleaves(a[1..], b, c[1..]))
      || (b != [] && b[0] == c[0] && Interleaves(a, b[1..], c[1..]))
  }

  lemma {:induction false} InterleavingHasBoth(a: Trace, b: Trace, c: Trace)
    requires Interleaves(a, b, c)
    ensures forall s :: s in c <==> s in a || s in b
    decreases |c|
  {
    if c != [] {
      if a != [] && a[0] == c[0] && Interleaves(a[1..], b, c[1..]) {
        InterleavingHasBoth(a[1..], b, c[1..]);
        assert a == [a[0]] + a[1..] && c == [c[0]] + c[1..];
      } else {
        InterleavingHasBoth(a, b[1..], c[1..]);
        assert b == [b[0]] + b[1..] && c == [c[0]] + c[1..];
      }
    }
  }

  /** The boundary holds of every interleaving of a corresponding host and reader, and of nothing that
      contains a host or reader step breaking a correspondence condition. */
  lemma {:induction false} InterleavingsSatisfyBoundary(h: seq<HostStep>, r: seq<ReaderStep>, t: Trace)
    requires Interleaves(HostTrace(h), ReaderTrace(r), t)
    ensures SatisfiesIOBoundary(t) <==> HostCorresponds(h) && ReaderCorresponds(r)
  {
    InterleavingHasBoth(HostTrace(h), ReaderTrace(r), t);
    BoundaryIsPointwise(t);
    forall k | 0 <= k < |h|
      ensures HostTrace(h)[k] in t && (SatisfiesIOBoundary([HostTrace(h)[k]]) <==> HostCorresponds([h[k]]))
    {
      StepCorresponds(h[k]);
    }
    forall k | 0 <= k < |r|
      ensures ReaderTrace(r)[k] in t && (SatisfiesIOBoundary([ReaderTrace(r)[k]]) <==> ReaderCorresponds([r[k]]))
    {
      assert r[k] in [r[k]];
      ReaderStepCorresponds(r[k]);
    }
    CorrespondsPointwise(h, r);
  }

  lemma {:induction false} StepCorresponds(s: HostStep)
    ensures SatisfiesIOBoundary([HostEffect(s)]) <==> HostCorresponds([s])
  {
    assert s in [s] && HostEffect(s) in [HostEffect(s)];
  }

  lemma {:induction false} ReaderStepCorresponds(s: ReaderStep)
    ensures SatisfiesIOBoundary([ReaderEffect(s)]) <==> ReaderCorresponds([s])
  {
    assert s in [s] && ReaderEffect(s) in [ReaderEffect(s)];
  }

  lemma {:induction false} CorrespondsPointwise(h: seq<HostStep>, r: seq<ReaderStep>)
    ensures HostCorresponds(h) <==> forall k | 0 <= k < |h| :: HostCorresponds([h[k]])
    ensures ReaderCorresponds(r) <==> forall k | 0 <= k < |r| :: ReaderCorresponds([r[k]])
  {
    forall k | 0 <= k < |h|
      ensures h[k] in h && h[k] in [h[k]]
    {
    }
    forall k | 0 <= k < |r|
      ensures r[k] in r && r[k] in [r[k]]
    {
    }
  }
}
