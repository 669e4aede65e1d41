/** The canary checker for recorded traces, and its agreement with the tagged model. */
module TraceCheck {
  import opened Bytes
  import opened Text
  import opened Boundary

  type Recorded = Effect<seq<byte>>

  datatype InvariantError =
    | TaintedOpen(path: seq<byte>)
    | TaintedExec(bytes: seq<byte>)
    | Net(host: seq<byte>, port: nat)
    | UnauthorizedWrite(fd: int)

  /** Some window of the haystack equals the needle; an empty needle is never found. */
  predicate ContainsSubsequence(haystack: seq<byte>, needle: seq<byte>) {
    if needle == [] || |needle| > |haystack| then false
    else exists i | 0 <= i <= |haystack| - |needle| :: Occurs(needle, haystack, i)
  }

  /** The search finds a canary that is not empty wherever it stands. */
  lemma {:induction false} ContainsMeans(haystack: seq<byte>, needle: seq<byte>)
    ensures ContainsSubsequence(haystack, needle)
       <==> needle != [] && exists before, after :: haystack == before + needle + after
  {
    if ContainsSubsequence(haystack, needle) {
      var i :| 0 <= i <= |haystack| - |needle| && Occurs(needle, haystack, i);
      assert haystack == haystack[..i] + needle + haystack[i + |needle|..];
    }
    if before, after :| needle != [] && haystack == before + needle + after {
      assert haystack[|before|..|before| + |needle|] == needle;
      assert Occurs(needle, haystack, |before|);
    }
  }

  /** The byte strings of an exec effect, in the order they are inspected. */
  function EnvStrings<B>(env: seq<(B, B)>): seq<B> {
    if env == [] then [] else [env[0].0, env[0].1] + EnvStrings(env[1..])
  }

  function FirstHit(ss: seq<seq<byte>>, canary: seq<byte>): Option<seq<byte>> {
    if ss == [] then None
    else if ContainsSubsequence(ss[0], canary) then Some(ss[0])
    else FirstHit(ss[1..], canary)
  }

  /** The verdict on one effect. */
  function Inspect(e: Recorded, canary: seq<byte>): Option<InvariantError> {
    match e
    case OpenP(p) => if ContainsSubsequence(p, canary) then Some(TaintedOpen(p)) else None
    case ExecP(p, args, env) =>
      (match FirstHit([p] + args + EnvStrings(env), canary)
       case None => None
       case Some(b) => Some(TaintedExec(b)))
    case NetConn(host, port) => Some(Net(host, port))
    case WriteF(fd, b) =>
      if ContainsSubsequence(b, canary) && fd !in ALLOWED_TAINTED_WRITES then Some(UnauthorizedWrite(fd))
      else None
    case ReadF(_) => None
  }

  function FirstViolation(es: seq<Recorded>, canary: seq<byte>): Option<InvariantError> {
    if es == [] then None
    else match Inspect(es[0], canary)
      case Some(err) => Some(err)
      case None => FirstViolation(es[1..], canary)
  }

  /** The checker: nested loops that return at the first offence. */
  method CheckTrace(effects: seq<Recorded>, canary: seq<byte>) returns (r: Result<(), InvariantError>)
    ensures r == match FirstViolation(effects, canary) case None => Ok(()) case Some(err) => Err(err)
  {
    hide FirstHit, ContainsSubsequence, EnvStrings;
    var i := 0;
    while i < |effects|
      invariant i <= |effects| && FirstViolation(effects, canary) == FirstViolation(effects[i..], canary)
    {
      var e := effects[i];
      assert effects[i..][0] == e && effects[i..][1..] == effects[i + 1..];
      match e {
        case OpenP(p) =>
          if ContainsSubsequence(p, canary) {
            return Err(TaintedOpen(p));
          }
        case ExecP(p, args, env) =>
          var hit := InspectExec(p, args, env, canary);
          if hit.Some? {
            return Err(TaintedExec(hit.value));
          }
        case NetConn(host, port) =>
          return Err(Net(host, port));
        case WriteF(fd, b) =>
          if ContainsSubsequence(b, canary) && fd !in ALLOWED_TAINTED_WRITES {
            return Err(UnauthorizedWrite(fd));
          }
        case ReadF(_) =>
      }
      i := i + 1;
    }
    r := Ok(());
  }

  /** The part of the checker that looks at a program, its arguments and its environment. */
  method InspectExec(path: seq<byte>, args: seq<seq<byte>>, env: seq<(seq<byte>, seq<byte>)>, canary: seq<byte>)
    returns (hit: Option<seq<byte>>)
    ensures hit == FirstHit([path] + args + EnvStrings(env), canary)
  {
    hide ContainsSubsequence;
    ghost var all := [path] + args + EnvStrings(env);
    if ContainsSubsequence(path, canary) {
      return Some(path);
    }
    assert all[1..] == args[0..] + EnvStrings(env);
    var i := 0;
    while i < |args|
      invariant i <= |args| && FirstHit(all, canary) == FirstHit(args[i..] + EnvStrings(env), canary)
    {
      assert (args[i..] + EnvStrings(env))[1..] == args[i + 1..] + EnvStrings(env);
      if ContainsSubsequence(args[i], canary) {
        return Some(args[i]);
      }
      i := i + 1;
    }
    assert args[i..] + EnvStrings(env) == EnvStrings(env[0..]);
    i := 0;
    while i < |env|
      invariant i <= |env| && FirstHit(all, canary) == FirstHit(EnvStrings(env[i..]), canary)
    {
      EnvHit(env, i, canary);
      if ContainsSubsequence(env[i].0, canary) {
        return Some(env[i].0);
      }
      if ContainsSubsequence(env[i].1, canary) {
        return Some(env[i].1);
      }
      i := i + 1;
    }
    hit := None;
  }

  lemma {:induction false} EnvHit(env: seq<(seq<byte>, seq<byte>)>, i: nat, canary: seq<byte>)
    requires i < |env|
    ensures FirstHit(EnvStrings(env[i..]), canary)
         == if ContainsSubsequence(env[i].0, canary) then Some(env[i].0)
            else if ContainsSubsequence(env[i].1, canary) then Some(env[i].1)
            else FirstHit(EnvStrings(env[i + 1..]), canary)
  {
    hide ContainsSubsequence;
    var ss, later := EnvStrings(env[i..]), EnvStrings(env[i + 1..]);
    assert env[i..][1..] == env[i + 1..];
    assert ss[0] == env[i].0 && ss[1..] == [env[i].1] + later && ss[1..][1..] == later;
  }

  // ---------------------------------------------------------------- exactness

  /** The boundary, restated for a recorded effect and a canary. */
  ghost predicate Leaks(e: Recorded, canary: seq<byte>) {
    match e
    case OpenP(p) => ContainsSubsequence(p, canary)
    case ExecP(p, args, env) =>
      || ContainsSubsequence(p, canary)
      || (exists a <- args :: ContainsSubsequence(a, canary))
      || (exists kv <- env :: ContainsSubsequence(kv.0, canary) || ContainsSubsequence(kv.1, canary))
    case NetConn(_, _) => true
    case WriteF(fd, b) => ContainsSubsequence(b, canary) && fd !in ALLOWED_TAINTED_WRITES
    case ReadF(_) => false
  }

  /** An error names something the effect really contains. */
  ghost predicate Describes(err: InvariantError, e: Recorded, canary: seq<byte>) {
    match err
    case TaintedOpen(p) => e == Effect.OpenP(p) && ContainsSubsequence(p, canary)
    case TaintedExec(b) =>
      && e.ExecP? && ContainsSubsequence(b, canary)
      && (b == e.path || b in e.args || exists kv <- e.env :: b == kv.0 || b == kv.1)
    case Net(host, port) => e == Effect.NetConn(host, port)
    case UnauthorizedWrite(fd) =>
      e.WriteF? && e.fd == fd && fd !in ALLOWED_TAINTED_WRITES && ContainsSubsequence(e.bytes, canary)
  }

  lemma {:induction false} FirstHitSpec(ss: seq<seq<byte>>, canary: seq<byte>)
    ensures FirstHit(ss, canary).None? <==> forall s <- ss :: !ContainsSubsequence(s, canary)
    ensures FirstHit(ss, canary).Some? ==>
              FirstHit(ss, canary).value in ss && ContainsSubsequence(FirstHit(ss, canary).value, canary)
  {
    hide ContainsSubsequence;
    if ss != [] {
      FirstHitSpec(ss[1..], canary);
    }
  }

  lemma {:induction false} EnvStringsSpec<B>(env: seq<(B, B)>)
    ensures forall b :: b in EnvStrings(env) <==> exists kv <- env :: b == kv.0 || b == kv.1
  {
    if env != [] {
      EnvStringsSpec(env[1..]);
      assert env == [env[0]] + env[1..];
      assert env[0] in env && forall kv <- env[1..] :: kv in env;
    }
  }

  lemma {:induction false} InspectIsExact(e: Recorded, canary: seq<byte>)
    ensures Inspect(e, canary).Some? <==> Leaks(e, canary)
    ensures Inspect(e, canary).Some? ==> Describes(Inspect(e, canary).value, e, canary)
  {
    hide ContainsSubsequence, FirstHit, EnvStrings;
    if e.ExecP? {
      var ss := [e.path] + e.args + EnvStrings(e.env);
      FirstHitSpec(ss, canary);
      EnvStringsSpec(e.env);
      assert forall b :: b in ss <==> b == e.path || b in e.args || b in EnvStrings(e.env);
    }
  }

  /** The checker accepts exactly the traces in which no effect leaks, and otherwise describes the
      earliest effect that does. */
  lemma {:induction false} CheckIsExact(es: seq<Recorded>, canary: seq<byte>)
    ensures var r := FirstViolation(es, canary);
            && (r.None? <==> forall e <- es :: !Leaks(e, canary))
            && (r.Some? ==> exists k | 0 <= k < |es| ::
                  Leaks(es[k], canary) && Describes(r.value, es[k], canary)
                  && forall j | 0 <= j < k :: !Leaks(es[j], canary))
  {
    hide Inspect, Leaks, Describes;
    if es != [] {
      InspectIsExact(es[0], canary);
      CheckIsExact(es[1..], canary);
      var r := FirstViolation(es[1..], canary);
      if Inspect(es[0], canary).None? && r.Some? {
        var k :| 0 <= k < |es[1..]| && Leaks(es[1..][k], canary) && Describes(r.value, es[1..][k], canary)
                 && forall j | 0 <= j < k :: !Leaks(es[1..][j], canary);
        assert es[k + 1] == es[1..][k];
        forall j | 0 <= j < k + 1
          ensures !Leaks(es[j], canary)
        {
          assert j > 0 ==> es[j] == es[1..][j - 1];
        }
      }
    }
  }

  // ---------------------------------------------------------------- agreement with the tagged model

  function UntagAll(bs: seq<Tagged>): (r: seq<seq<byte>>)
    ensures |r| == |bs| && forall k | 0 <= k < |r| :: r[k] == bs[k].bytes
  {
    if bs == [] then [] else [bs[0].bytes] + UntagAll(bs[1..])
  }

  function UntagEnv(env: seq<(Tagged, Tagged)>): (r: seq<(seq<byte>, seq<byte>)>)
    ensures |r| == |env| && forall k | 0 <= k < |r| :: r[k] == (env[k].0.bytes, env[k].1.bytes)
  {
    if env == [] then [] else [(env[0].0.bytes, env[0].1.bytes)] + UntagEnv(env[1..])
  }

  /** What a recorder sees of an effect: the bytes without their provenance. */
  function Untag(e: Effect<Tagged>): Recorded {
    match e
    case OpenP(p) => OpenP(p.bytes)
    case ExecP(p, args, env) => ExecP(p.bytes, UntagAll(args), UntagEnv(env))
    case ReadF(fd) => ReadF(fd)
    case WriteF(fd, b) => WriteF(fd, b.bytes)
    case NetConn(host, port) => NetConn(host.bytes, port)
  }

  function UntagTrace(t: Trace): (r: seq<Recorded>)
    ensures |r| == |t| && forall k | 0 <= k < |r| :: r[k] == Untag(t[k])
  {
    if t == [] then [] else [Untag(t[0])] + UntagTrace(t[1..])
  }

  /** The byte strings of an effect that the boundary speaks of. */
  ghost predicate Carries(e: Effect<Tagged>, b: Tagged) {
    match e
    case OpenP(p) => b == p
    case ExecP(p, args, env) => b == p || b in args || exists kv <- env :: b == kv.0 || b == kv.1
    case WriteF(_, w) => b == w
    case _ => false
  }

  /** The canary marks no untainted string. */
  ghost predicate NoFalseMark(t: Trace, canary: seq<byte>) {
    forall e <- t, b | Carries(e, b) :: ContainsSubsequence(b.bytes, canary) ==> Tainted(b)
  }

  /** The canary marks every tainted string. */
  ghost predicate NoMissingMark(t: Trace, canary: seq<byte>) {
    forall e <- t, b | Carries(e, b) :: Tainted(b) ==> ContainsSubsequence(b.bytes, canary)
  }

  lemma {:induction false} LeakMeansTaint(e: Effect<Tagged>, canary: seq<byte>)
    requires forall b | Carries(e, b) :: ContainsSubsequence(b.bytes, canary) ==> Tainted(b)
    requires Leaks(Untag(e), canary)
    ensures !SatisfiesIOBoundary([e])
  {
    hide ContainsSubsequence;
    assert e in [e];
    if e.ExecP? {
      var r := Untag(e);
      if ContainsSubsequence(r.path, canary) {
        assert Carries(e, e.path);
      } else if a :| a in r.args && ContainsSubsequence(a, canary) {
        var k :| 0 <= k < |r.args| && r.args[k] == a;
        assert Carries(e, e.args[k]);
      } else {
        var kv :| kv in r.env && (ContainsSubsequence(kv.0, canary) || ContainsSubsequence(kv.1, canary));
        var k :| 0 <= k < |r.env| && r.env[k] == kv;
        assert e.env[k] in e.env;
        assert Carries(e, e.env[k].0) && Carries(e, e.env[k].1);
      }
    } else if e.OpenP? {
      assert Carries(e, e.path);
    } else if e.WriteF? {
      assert Carries(e, e.bytes);
    }
  }

  lemma {:induction false} TaintMeansLeak(e: Effect<Tagged>, canary: seq<byte>)
    requires forall b | Carries(e, b) :: Tainted(b) ==> ContainsSubsequence(b.bytes, canary)
    requires !SatisfiesIOBoundary([e])
    ensures Leaks(Untag(e), canary)
  {
    hide ContainsSubsequence;
    var r := Untag(e);
    if e.ExecP? {
      if Tainted(e.path) {
        assert Carries(e, e.path);
      } else if b :| b in e.args && Tainted(b) {
        var k :| 0 <= k < |e.args| && e.args[k] == b;
        assert Carries(e, b) && r.args[k] in r.args;
      } else {
        var kv :| kv in e.env && (Tainted(kv.0) || Tainted(kv.1));
        var k :| 0 <= k < |e.env| && e.env[k] == kv;
        assert Carries(e, kv.0) && Carries(e, kv.1) && r.env[k] in r.env;
      }
    } else if e.OpenP? {
      assert Carries(e, e.path);
    } else if e.WriteF? {
      assert Carries(e, e.bytes);
    }
  }

  /** On the untagged trace of the model, a canary that marks no untainted string raises no false alarm,
      and one that also marks every tainted string decides the boundary: the checker then accepts exactly
      the traces that satisfy it. */
  lemma {:induction false} CanaryAgrees(t: Trace, canary: seq<byte>)
    requires NoFalseMark(t, canary)
    ensures SatisfiesIOBoundary(t) ==> FirstViolation(UntagTrace(t), canary).None?
    ensures NoMissingMark(t, canary) ==> (SatisfiesIOBoundary(t) <==> FirstViolation(UntagTrace(t), canary).None?)
  {
    hide Leaks, Untag, ContainsSubsequence, Carries, FirstViolation, SatisfiesIOBoundary, Tainted;
    var es := UntagTrace(t);
    CheckIsExact(es, canary);
    BoundaryIsPointwise(t);
    if e :| e in es && Leaks(e, canary) {
      var k :| 0 <= k < |es| && es[k] == e;
      assert t[k] in t;
      LeakMeansTaint(t[k], canary);
    }
    if NoMissingMark(t, canary) {
      if s :| s in t && !SatisfiesIOBoundary([s]) {
        var k :| 0 <= k < |t| && t[k] == s;
        TaintMeansLeak(s, canary);
        assert es[k] in es;
      }
    }
  }

  /** The model's programs pass the recorded check: for a corresponding host and reader, any interleaving
      of their traces satisfies the proposition and the Boolean checker, and its recording passes the
      canary checker for every canary that marks no untainted string. */
  lemma {:induction false} ProgramsPassTheCheck(h: seq<HostStep>, r: seq<ReaderStep>, t: Trace, canary: seq<byte>)
    requires HostCorresponds(h) && ReaderCorresponds(r)
    requires Interleaves(HostTrace(h), ReaderTrace(r), t)
    ensures SatisfiesIOBoundary(t) && CheckIOBoundary(t)
    ensures NoFalseMark(t, canary) ==> FirstViolation(UntagTrace(t), canary).None?
  {
    hide SatisfiesIOBoundary, NoFalseMark, FirstViolation, Interleaves, HostCorresponds, ReaderCorresponds;
    InterleavingsSatisfyBoundary(h, r, t);
    CheckerIsCorrect(t);
    if NoFalseMark(t, canary) {
      CanaryAgrees(t, canary);
    }
  }
}
