/** The lines of a text. */
module TextLines {
  import opened Bytes

  predicate OneLine(s: string) {
    s != "" && '\n' !in s && '\r' !in s
  }

  function LineEnd(s: string): (r: Option<nat>)
    ensures r.Some? ==> r.value < |s| && s[r.value] == '\n' && '\n' !in s[..r.value]
    ensures r.None? ==> '\n' !in s
  {
    if s == "" then None
    else if s[0] == '\n' then Some(0)
    else match LineEnd(s[1..])
      case None => None
      case Some(n) => Some(n + 1)
  }

  function StripCr(s: string): string {
    if s != "" && s[|s| - 1] == '\r' then s[..|s| - 1] else s
  }

  /** Rust's `lines`: line breaks and one carriage return before each are dropped; an unterminated rest
      is a line too. */
  function Lines(s: string): seq<string>
    decreases |s|
  {
    match LineEnd(s)
    case None => if s == "" then [] else [s]
    case Some(n) => [StripCr(s[..n])] + Lines(s[n + 1..])
  }

  predicate Terminated(s: string) {
    s == "" || s[|s| - 1] == '\n'
  }

  lemma {:induction false} LineEndIs(s: string, n: nat)
    requires n < |s| && s[n] == '\n' && '\n' !in s[..n]
    ensures LineEnd(s) == Some(n)
  {
    assert '\n' in s;
    assert forall k | 0 <= k < n :: s[k] == s[..n][k];
  }

  /** The lines of any text, from its first line break on: a break ends a line, with a carriage return right
      before it or without, and what no break ends is a line unless it is empty. */
  lemma {:induction false} LinesAre(a: string, b: string)
    requires '\n' !in a
    ensures Lines(a) == if a == "" then [] else [a]
    ensures (a != "" ==> a[|a| - 1] != '\r') ==> Lines(a + "\n" + b) == [a] + Lines(b)
    ensures Lines(a + "\r\n" + b) == [a] + Lines(b)
  {
    hide LineEnd;
    LineEndIs(a + "\n" + b, |a|);
    LineEndIs(a + "\r\n" + b, |a| + 1);
    NoLineEnd(a);
    var s, t := a + "\n" + b, a + "\r\n" + b;
    assert s[..|a|] == a && s[|a| + 1..] == b;
    assert t[..|a| + 1] == a + ['\r'] && t[|a| + 2..] == b && (a + ['\r'])[..|a|] == a;
  }

  lemma {:induction false} NoLineEnd(a: string)
    requires '\n' !in a
    ensures LineEnd(a).None?
  {
  }

  /** Appending a terminated line to a terminated text appends one line. */
  lemma {:induction false} LinesAppend(s: string, line: string)
    requires Terminated(s) && OneLine(line)
    ensures Lines(s + line + "\n") == Lines(s) + [line]
    decreases |s|
  {
    var t := s + line + "\n";
    if s == "" {
      assert t == line + "\n" && t[..|line|] == line;
      LineEndIs(t, |line|);
      assert t[|line| + 1..] == "";
      assert Lines(t) == [line] + Lines("");
    } else {
      assert s[|s| - 1] in s;
      var n := LineEnd(s).value;
      assert t[..n] == s[..n];
      LineEndIs(t, n);
      assert t[n + 1..] == s[n + 1..] + line + "\n";
      LinesAppend(s[n + 1..], line);
    }
  }
}
