/** Searching in texts, as characters or as bytes. */
module Text {
  import opened Bytes

  predicate Occurs<T(==)>(p: seq<T>, s: seq<T>, i: int) {
    0 <= i && i + |p| <= |s| && s[i..i + |p|] == p
  }

  ghost predicate Contains<T>(s: seq<T>, p: seq<T>) {
    exists i :: Occurs(p, s, i)
  }

  /** The first occurrence at or after `from`. */
  function First<T(==)>(p: seq<T>, s: seq<T>, from: nat): (r: Option<nat>)
    ensures r.Some? ==> from <= r.value && Occurs(p, s, r.value)
    ensures forall i | from <= i && Occurs(p, s, i) :: r.Some? && r.value <= i
    decreases |s| - from
  {
    if from + |p| > |s| then None
    else if Occurs(p, s, from) then Some(from)
    else if from < |s| then First(p, s, from + 1) else None
  }

  lemma {:induction false} NotAcross<T>(p: seq<T>, s: seq<T>, i: int, j: int)
    requires Occurs(p, s, i) && i <= j < i + |p|
    ensures s[j] in p
  {
    assert s[i..i + |p|][j - i] == s[j];
  }

  /** An occurrence cannot straddle a character the pattern lacks. */
  lemma {:induction false} OccursAround<T>(p: seq<T>, a: seq<T>, c: T, b: seq<T>, i: int)
    requires c !in p && p != []
    ensures Occurs(p, a + [c] + b, i) <==> Occurs(p, a, i) || Occurs(p, b, i - |a| - 1)
  {
    var s := a + [c] + b;
    if Occurs(p, s, i) {
      if i <= |a| < i + |p| {
        NotAcross(p, s, i, |a|);
      } else if i > |a| {
        assert s[i..i + |p|] == b[i - |a| - 1..i - |a| - 1 + |p|];
      } else {
        assert s[i..i + |p|] == a[i..i + |p|];
      }
    }
    if Occurs(p, a, i) {
      assert s[i..i + |p|] == a[i..i + |p|];
    }
    if Occurs(p, b, i - |a| - 1) {
      assert s[i..i + |p|] == b[i - |a| - 1..i - |a| - 1 + |p|];
    }
  }

  /** A pattern starts only where its first character does. */
  lemma {:induction false} OccursAtHead<T>(p: seq<T>, s: seq<T>, i: int)
    requires p != [] && Occurs(p, s, i)
    ensures s[i] == p[0] && forall k | 0 <= k < |p| :: s[i + k] == p[k]
  {
    assert s[i] == s[i..i + |p|][0];
    forall k | 0 <= k < |p|
      ensures s[i + k] == p[k]
    {
      assert s[i + k] == s[i..i + |p|][k];
    }
  }

  lemma {:induction false} OccursInside<T>(q: seq<T>, p: seq<T>, s: seq<T>, i: int, d: nat)
    requires Occurs(p, s, i) && d + |q| <= |p| && p[d..d + |q|] == q
    ensures Occurs(q, s, i + d)
  {
    forall k | 0 <= k < |q|
      ensures s[i + d + k] == q[k]
    {
      assert s[i + d + k] == s[i..i + |p|][d + k];
      assert p[d + k] == p[d..d + |q|][k];
    }
  }
}
