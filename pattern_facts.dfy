/**
 * Consequences of the parser's patterns: what makes a pattern fail outright, where a
 * lazy capture ends when nothing in the text names a list, and why the capture of an
 * add pattern begins at the first start the pattern tries even when that cuts a word.
 */
module PatternFacts {
  import opened Options
  import opened Text
  import opened Parser

  /** No alternative ends anywhere when none of the words starts at the position. */
  lemma {:induction false} AlternativesNone(t: string, p: nat, ws: seq<string>)
    requires forall k :: 0 <= k < |ws| ==> !StartsAt(t, p, ws[k])
    ensures Alternatives(t, p, ws) == []
  {
    if ws != [] {
      AlternativesNone(t, p, ws[1..]);
    }
  }

  /** No fragment has an end when there is no position to start it from. */
  lemma {:induction false} EndsOfNothing(t: string, fs: seq<Fragment>)
    ensures Ends(t, fs, []) == []
  {
    if fs != [] {
      EndsOfNothing(t, fs[1..]);
    }
  }

  /** A pattern none of whose verbs occurs in the text does not match it. */
  lemma NoVerbNoMatch(pat: Pattern, t: string)
    requires forall k, p: nat :: 0 <= k < |Prefix(pat)[0].words| ==> !StartsAt(t, p, Prefix(pat)[0].words[k])
    ensures Match(pat, t).None?
  {
    EndsOfNothing(t, Prefix(pat)[1..]);
    forall p | 0 <= p <= |t|
      ensures CaptureAt(pat, t, p).None?
    {
      AlternativesNone(t, p, Prefix(pat)[0].words);
      assert Step(t, Prefix(pat)[0], [p]) == [];
      assert CaptureStarts(pat, t, p) == [];
    }
  }

  /** Without the word "list", the list-phrase tails can only match at the end of the text. */
  lemma NoListOnlyEnd(pat: Pattern, t: string, e: nat)
    requires pat == AddWithUnit || pat == RemovePhrase
    requires forall p: nat :: !StartsAt(t, p, "list")
    ensures TailAt(pat, t, e) <==> e == |t|
  {
  }

  /** The first position that passes a test, as `FirstWhere` reports it. */
  lemma {:induction false} FirstWhereAt(test: nat -> bool, lo: nat, hi: nat, x: nat)
    requires lo <= x < hi && test(x)
    requires forall j :: lo <= j < x ==> !test(j)
    ensures FirstWhere(test, lo, hi) == Some(x)
    decreases x - lo
  {
    if lo < x {
      FirstWhereAt(test, lo + 1, hi, x);
    }
  }

  /** Without the word "list", a lazy capture with a list-phrase tail runs to the end of the text. */
  lemma CaptureToEnd(pat: Pattern, t: string, q: nat)
    requires pat == AddWithUnit || pat == RemovePhrase
    requires forall p: nat :: !StartsAt(t, p, "list")
    requires q < |t| && q + Run(t, q, Dot) == |t|
    ensures CaptureEnd(pat, t, q) == Some(|t|)
  {
    forall e | q + 1 <= e <= |t|
      ensures TailOf(pat, t)(e) <==> e == |t|
    {
      NoListOnlyEnd(pat, t, e);
    }
    FirstWhereAt(TailOf(pat, t), q + 1, |t| + 1, |t|);
  }

  /** The unit words are tried as listed, so before "bottles" the shorter "bottle" is taken. */
  lemma BottleBeforeBottles(t: string, i: nat)
    requires StartsAt(t, i, "bottles")
    ensures |OptionalUnit(t, i)| >= 3 && OptionalUnit(t, i)[0] == i + 6 && OptionalUnit(t, i)[1] == i + 7
  {
    StartsAtIff(t, i, "bottles");
    StartsAtIff(t, i, "bottle");
    assert t[i..i + 6] == t[i..i + 7][..6];
    var rest := Alternatives(t, i, UnitWords[2..]);
    assert UnitWords[1..][1..] == UnitWords[2..];
    assert Alternatives(t, i, UnitWords[1..]) == [i + 7] + rest;
    assert Alternatives(t, i, UnitWords) == [i + 6] + ([i + 7] + rest);
  }

  /** Hence the match at `p` uses the first capture start tried, when that is before the end. */
  lemma FirstStartWins(pat: Pattern, t: string, p: nat)
    requires pat == AddWithUnit || pat == RemovePhrase
    requires forall i :: 0 <= i < |t| ==> !IsLineTerminator(t[i])
    requires CaptureStarts(pat, t, p) != [] && CaptureStarts(pat, t, p)[0] < |t|
    ensures CaptureAt(pat, t, p).Some? && CaptureAt(pat, t, p).value.start == CaptureStarts(pat, t, p)[0]
  {
    LazyCaptureAlwaysEnds(pat, t, CaptureStarts(pat, t, p)[0]);
  }

  /** "add 0 apples" asks for quantity 0: nothing makes the quantity positive. */
  lemma ZeroQuantity()
    ensures Quantity("add 0 apples") == 0
  {
    var t := "add 0 apples";
    assert IsDigit(t[4]) && forall i :: 0 <= i < 4 ==> !IsDigit(t[i]);
    assert Run(t, 5, Digit) == 0;
    assert t[4..5] == "0";
  }
}
