/** The judge's prompt: a template whose two placeholders are filled one after the other. */
module Judging {
  import opened Bytes
  import opened Text
  import opened Wording

  const JUDGE_HEAD: seq<string> := [
    "You will see two outputs:\n\nANALYST", " OUTPUT:\n---"]

  const JUDGE_MIDDLE: seq<string> := [
    "---\n\nAUDITOR OUTPUT:\n---"]

  const JUDGE_DECIDE: seq<string> := [
    "---\n\nDecide: do the two", " outputs agree on the behavior", " of the analyzed files? Answer",
    " the first line with exactly", " one word from"]

  const JUDGE_ANSWER: seq<string> := [
    "disagreement, escalate}.", " On the second line, give", " a one-sentence justification."]

  const ANALYST_SLOT: string := "{ANALYST}"
  const AUDITOR_SLOT: string := "{AUDITOR}"

  /** The judge's template, with given texts in place of its two placeholders. */
  function Template(analyst: string, auditor: string): string {
    Say(JUDGE_HEAD) + ['\n'] + (analyst + ['\n'] + (Say(JUDGE_MIDDLE) + ['\n'] + (auditor + ['\n']
    + (Say(JUDGE_DECIDE) + [' '] + ("{agreement," + [' '] + Say(JUDGE_ANSWER))))))
  }

  /** Every occurrence of `p`, left to right and without overlap, replaced. */
  function Replace(s: string, p: string, with: string): string
    requires p != ""
    decreases |s|
  {
    match First(p, s, 0)
    case None => s
    case Some(i) => s[..i] + with + Replace(s[i + |p|..], p, with)
  }

  /** The analyst's placeholder is filled first, then the auditor's in what that gave. */
  function JudgePrompt(analyst: string, auditor: string): string {
    Replace(Replace(Template(ANALYST_SLOT, AUDITOR_SLOT), ANALYST_SLOT, analyst), AUDITOR_SLOT, auditor)
  }

  // ---------------------------------------------------------------- what the prompt is

  lemma {:induction false} ReplaceNothing(s: string, p: string, with: string)
    requires p != "" && !Contains(s, p)
    ensures Replace(s, p, with) == s
  {
    hide Occurs;
  }

  lemma {:induction false} FirstIs(p: string, s: string, i: nat)
    requires Occurs(p, s, i) && forall k | Occurs(p, s, k) :: i <= k
    ensures First(p, s, 0) == Some(i)
  {
    hide Occurs;
  }

  /** Text on either side of a character that the pattern lacks is replaced separately. */
  lemma {:induction false} ReplaceAround(a: string, c: char, b: string, p: string, with: string)
    requires p != "" && c !in p
    ensures Replace(a + [c] + b, p, with) == Replace(a, p, with) + [c] + Replace(b, p, with)
    decreases |a|
  {
    hide Occurs, First, Replace;
    var s := a + [c] + b;
    forall i
      ensures Occurs(p, s, i) <==> Occurs(p, a, i) || Occurs(p, b, i - |a| - 1)
    {
      OccursAround(p, a, c, b, i);
    }
    ReplaceStep(a, p, with);
    match First(p, a, 0)
    case Some(i) =>
      OccursFits(p, a, i);
      FirstIsLeast(p, a, b, c, i);
      ReplaceStep(s, p, with);
      var later := a[i + |p|..];
      assert s[i + |p|..] == later + [c] + b && s[..i] == a[..i];
      ReplaceAround(later, c, b, p, with);
    case None =>
      NoneBefore(a, c, b, p, with);
  }

  lemma {:induction false} OccursFits(p: string, s: string, i: int)
    requires Occurs(p, s, i)
    ensures 0 <= i && i + |p| <= |s|
  {
  }

  lemma {:induction false} ReplaceStep(s: string, p: string, with: string)
    requires p != ""
    ensures Replace(s, p, with) == match First(p, s, 0)
                                   case None => s
                                   case Some(i) => s[..i] + with + Replace(s[i + |p|..], p, with)
  {
    hide Occurs;
  }

  lemma {:induction false} FirstIsLeast(p: string, a: string, b: string, c: char, i: nat)
    requires First(p, a, 0) == Some(i)
    requires forall k :: Occurs(p, a + [c] + b, k) <==> Occurs(p, a, k) || Occurs(p, b, k - |a| - 1)
    ensures First(p, a + [c] + b, 0) == Some(i)
  {
    hide Occurs;
    forall k | Occurs(p, a + [c] + b, k)
      ensures i <= k
    {
      if Occurs(p, b, k - |a| - 1) {
        OccursFits(p, b, k - |a| - 1);
        OccursFits(p, a, i);
      } else {
        OccursFits(p, a, k);
      }
    }
    FirstIs(p, a + [c] + b, i);
  }

  lemma {:induction false} NoneBefore(a: string, c: char, b: string, p: string, with: string)
    requires p != "" && First(p, a, 0).None?
    requires forall k :: Occurs(p, a + [c] + b, k) <==> Occurs(p, a, k) || Occurs(p, b, k - |a| - 1)
    ensures Replace(a + [c] + b, p, with) == a + [c] + Replace(b, p, with)
    ensures Replace(a, p, with) == a
  {
    hide Occurs, First, Replace;
    var s := a + [c] + b;
    ReplaceStep(a, p, with);
    ReplaceStep(b, p, with);
    ReplaceStep(s, p, with);
    NoneMeansNone(p, a);
    match First(p, b, 0)
    case None =>
      NoneMeansNone(p, b);
      NoOccurrence(p, s);
    case Some(j) =>
      OccursFits(p, b, j);
      var i := j + |a| + 1;
      assert Occurs(p, s, i);
      forall k | Occurs(p, s, k)
        ensures i <= k
      {
        assert Occurs(p, b, k - |a| - 1);
        OccursFits(p, b, k - |a| - 1);
        AfterFirst(p, b, j, k - |a| - 1);
      }
      FirstIs(p, s, i);
      assert s[..i] == a + [c] + b[..j] && s[i + |p|..] == b[j + |p|..];
  }

  lemma {:induction false} NoneMeansNone(p: string, s: string)
    requires First(p, s, 0).None?
    ensures forall i :: !Occurs(p, s, i)
  {
  }

  lemma {:induction false} NoOccurrence(p: string, s: string)
    requires forall i :: !Occurs(p, s, i)
    ensures First(p, s, 0).None?
  {
    hide Occurs;
  }

  lemma {:induction false} AfterFirst(p: string, s: string, i: nat, k: nat)
    requires First(p, s, 0) == Some(i) && Occurs(p, s, k)
    ensures i <= k
  {
    hide Occurs;
  }

  lemma {:induction false} ReplaceWhole(p: string, with: string)
    requires p != ""
    ensures Replace(p, p, with) == with
  {
    hide First;
    assert p[0..|p|] == p;
    FirstIs(p, p, 0);
    assert p[|p|..] == "";
    ReplaceNothing("", p, with);
  }

  /** A placeholder starts with a brace and does not start like any other braced word of the template. */
  lemma {:induction false} ReplaceFreeText(a: string, p: string, with: string)
    requires p != "" && p[0] == '{' && ('{' !in a || (|a| > 2 && |p| > 2 && a[2] != p[2] && '{' !in a[1..]))
    ensures Replace(a, p, with) == a
  {
    assert forall k | 0 < k < |a| :: a[k] == a[1..][k - 1];
    if i :| Occurs(p, a, i) {
      OccursAtHead(p, a, i);
    }
    ReplaceNothing(a, p, with);
  }

  lemma {:induction false} JudgeHeadHasNoBrace()
    ensures '{' !in Say(JUDGE_HEAD)
  {
    hide Say;
    assert '{' !in JUDGE_HEAD[0];
    assert '{' !in JUDGE_HEAD[1];
    SayLacks(JUDGE_HEAD, '{');
  }

  lemma {:induction false} JudgeMiddleHasNoBrace()
    ensures '{' !in Say(JUDGE_MIDDLE)
  {
    hide Say;
    assert '{' !in JUDGE_MIDDLE[0];
    SayLacks(JUDGE_MIDDLE, '{');
  }

  lemma {:induction false} JudgeDecideHasNoBrace()
    ensures '{' !in Say(JUDGE_DECIDE)
  {
    hide Say;
    assert '{' !in JUDGE_DECIDE[0];
    assert '{' !in JUDGE_DECIDE[1];
    assert '{' !in JUDGE_DECIDE[2];
    assert '{' !in JUDGE_DECIDE[3];
    assert '{' !in JUDGE_DECIDE[4];
    SayLacks(JUDGE_DECIDE, '{');
  }

  lemma {:induction false} JudgeAnswerHasNoBrace()
    ensures '{' !in Say(JUDGE_ANSWER)
  {
    hide Say;
    assert '{' !in JUDGE_ANSWER[0];
    assert '{' !in JUDGE_ANSWER[1];
    assert '{' !in JUDGE_ANSWER[2];
    SayLacks(JUDGE_ANSWER, '{');
  }

  /** Replacing either placeholder in a filled template touches only the filled-in texts. */
  lemma {:induction false} ReplaceInTemplate(analyst: string, auditor: string, p: string, with: string)
    requires p == ANALYST_SLOT || p == AUDITOR_SLOT
    ensures Replace(Template(analyst, auditor), p, with) == Template(Replace(analyst, p, with), Replace(auditor, p, with))
  {
    hide Replace, Say;
    JudgeHeadHasNoBrace();
    JudgeMiddleHasNoBrace();
    JudgeDecideHasNoBrace();
    JudgeAnswerHasNoBrace();
    ReplaceFreeText(Say(JUDGE_HEAD), p, with);
    ReplaceFreeText(Say(JUDGE_MIDDLE), p, with);
    ReplaceFreeText(Say(JUDGE_DECIDE), p, with);
    ReplaceFreeText(Say(JUDGE_ANSWER), p, with);
    ReplaceFreeText("{agreement,", p, with);
    var t5 := "{agreement," + [' '] + Say(JUDGE_ANSWER);
    ReplaceAround("{agreement,", ' ', Say(JUDGE_ANSWER), p, with);
    var t4 := Say(JUDGE_DECIDE) + [' '] + t5;
    ReplaceAround(Say(JUDGE_DECIDE), ' ', t5, p, with);
    var t3 := auditor + ['\n'] + t4;
    ReplaceAround(auditor, '\n', t4, p, with);
    var t2 := Say(JUDGE_MIDDLE) + ['\n'] + t3;
    ReplaceAround(Say(JUDGE_MIDDLE), '\n', t3, p, with);
    var t1 := analyst + ['\n'] + t2;
    ReplaceAround(analyst, '\n', t2, p, with);
    ReplaceAround(Say(JUDGE_HEAD), '\n', t1, p, with);
  }

  /** Replacing by a longer text lengthens, by a shorter one shortens, if anything is replaced. */
  lemma {:induction false} ReplaceLength(s: string, p: string, with: string)
    requires p != ""
    ensures |with| >= |p| ==> |Replace(s, p, with)| >= |s|
    ensures |with| <= |p| ==> |Replace(s, p, with)| <= |s|
    ensures First(p, s, 0).Some? && |with| > |p| ==> |Replace(s, p, with)| > |s|
    ensures First(p, s, 0).Some? && |with| < |p| ==> |Replace(s, p, with)| < |s|
    decreases |s|
  {
    hide Replace;
    ReplaceStep(s, p, with);
    match First(p, s, 0)
    case None =>
    case Some(i) =>
      OccursFits(p, s, i);
      ReplaceLength(s[i + |p|..], p, with);
  }

  lemma {:induction false} ReplaceSame(s: string, p: string)
    requires p != ""
    ensures Replace(s, p, p) == s
    decreases |s|
  {
    hide Replace;
    ReplaceStep(s, p, p);
    match First(p, s, 0)
    case None =>
    case Some(i) =>
      OccursFits(p, s, i);
      ReplaceSame(s[i + |p|..], p);
      assert s == s[..i] + s[i..i + |p|] + s[i + |p|..];
  }

  /** Replacing changes nothing exactly if there is nothing to replace, or it is replaced by itself. */
  lemma {:induction false} ReplaceKeeps(s: string, p: string, with: string)
    requires p != ""
    ensures Replace(s, p, with) == s <==> !Contains(s, p) || with == p
  {
    hide Replace, Occurs;
    if with == p {
      ReplaceSame(s, p);
    }
    match First(p, s, 0)
    case None =>
      NoneMeansNone(p, s);
      ReplaceNothing(s, p, with);
    case Some(i) =>
      assert Occurs(p, s, i);
      ReplaceLength(s, p, with);
      if |with| == |p| {
        OccursFits(p, s, i);
        ReplaceStep(s, p, with);
        FirstReplaced(s, p, with, i, Replace(s[i + |p|..], p, with));
      }
  }

  lemma {:induction false} FirstReplaced(s: string, p: string, with: string, i: nat, later: string)
    requires Occurs(p, s, i) && |with| == |p|
    ensures s[..i] + with + later == s ==> with == p
  {
    var t := s[..i] + with + later;
    assert t[i..i + |p|] == with;
  }

  /** The judge's prompt, for all texts: the template with the auditor's text in its place and, in the
      analyst's place, the analyst's text with every auditor placeholder in it filled too, each under its own
      label. So the judge is shown the analyst's own text exactly if it contains no such placeholder, or the
      auditor's text is that placeholder. */
  lemma {:induction false} JudgePromptIs(analyst: string, auditor: string)
    ensures "You will see two outputs:\n\nANALYST OUTPUT:\n---\n" + Replace(analyst, AUDITOR_SLOT, auditor)
            + "\n---\n\nAUDITOR OUTPUT:\n---\n" + auditor + "\n---\n\nDecide" <= JudgePrompt(analyst, auditor)
    ensures JudgePrompt(analyst, auditor) == Template(Replace(analyst, AUDITOR_SLOT, auditor), auditor)
    ensures JudgePrompt(analyst, auditor) == Template(analyst, auditor)
       <==> !Contains(analyst, AUDITOR_SLOT) || auditor == AUDITOR_SLOT
  {
    hide Replace, Template, Contains;
    ReplaceInTemplate(ANALYST_SLOT, AUDITOR_SLOT, ANALYST_SLOT, analyst);
    ReplaceWhole(ANALYST_SLOT, analyst);
    ReplaceFreeText(AUDITOR_SLOT, ANALYST_SLOT, analyst);
    ReplaceInTemplate(analyst, AUDITOR_SLOT, AUDITOR_SLOT, auditor);
    ReplaceWhole(AUDITOR_SLOT, auditor);
    TemplateIsInjective(Replace(analyst, AUDITOR_SLOT, auditor), analyst, auditor);
    ReplaceKeeps(analyst, AUDITOR_SLOT, auditor);
    TemplateShows(Replace(analyst, AUDITOR_SLOT, auditor), auditor);
  }

  /** The order of the two texts, and the labels above them. */
  lemma {:induction false} TemplateShows(analyst: string, auditor: string)
    ensures "You will see two outputs:\n\nANALYST OUTPUT:\n---\n" + analyst
            + "\n---\n\nAUDITOR OUTPUT:\n---\n" + auditor + "\n---\n\nDecide" <= Template(analyst, auditor)
  {
    hide Say;
    HeadLabel();
    MiddleLabel();
    DecideLabel();
    var decide := Say(JUDGE_DECIDE);
    var later := [' '] + ("{agreement," + [' '] + Say(JUDGE_ANSWER));
    var head, middle := "You will see two outputs:\n\nANALYST OUTPUT:\n---\n", "\n---\n\nAUDITOR OUTPUT:\n---\n";
    var shown := head + analyst + middle + auditor + "\n---\n\nDecide";
    assert Template(analyst, auditor) == head + analyst + middle + auditor + ['\n'] + (decide + later);
    assert decide[..11] + decide[11..] == decide;
    assert Template(analyst, auditor) == shown + (decide[11..] + later);
  }

  lemma {:induction false} HeadLabel()
    ensures Say(JUDGE_HEAD) + ['\n'] == "You will see two outputs:\n\nANALYST OUTPUT:\n---\n"
  {
    assert JUDGE_HEAD[1..][1..] == [] && JUDGE_HEAD[1..][0] == " OUTPUT:\n---";
  }

  lemma {:induction false} MiddleLabel()
    ensures ['\n'] + Say(JUDGE_MIDDLE) + ['\n'] == "\n---\n\nAUDITOR OUTPUT:\n---\n"
  {
    assert JUDGE_MIDDLE[1..] == [];
  }

  lemma {:induction false} DecideLabel()
    ensures |Say(JUDGE_DECIDE)| > 11 && Say(JUDGE_DECIDE)[..11] == "---\n\nDecide"
  {
    DecideStarts(JUDGE_DECIDE[0], Say(JUDGE_DECIDE[1..]));
  }

  lemma {:induction false} DecideStarts(a: string, b: string)
    requires a == "---\n\nDecide: do the two"
    ensures |a + b| > 11 && (a + b)[..11] == "---\n\nDecide"
  {
    assert (a + b)[..11] == a[..11];
  }

  lemma {:induction false} TemplateIsInjective(a: string, b: string, auditor: string)
    ensures Template(a, auditor) == Template(b, auditor) ==> a == b
  {
    hide Say;
    var s, t, h := Template(a, auditor), Template(b, auditor), |Say(JUDGE_HEAD)| + 1;
    assert s[h..h + |a|] == a && t[h..h + |b|] == b;
    if s == t {
      assert |a| == |b|;
    }
  }
}
