/**
 * Two utterances worked through the parser end to end: the unit alternative that
 * cuts "bottles", and the search capture that keeps one character.
 */
module Scenarios {
  import opened Options
  import opened Text
  import opened Parser
  import opened PatternFacts

  /** A word with a pair of adjacent letters that never occurs in the text starts nowhere in it. */
  lemma NoPairNoStart(t: string, w: string, k: nat)
    requires k + 1 < |w|
    requires forall p :: 0 <= p < |t| - 1 ==> !(t[p] == w[k] && t[p + 1] == w[k + 1])
    ensures forall p: nat :: !StartsAt(t, p, w)
  {
    forall p: nat
      ensures !StartsAt(t, p, w)
    {
      StartsAtIff(t, p, w);
      if p + |w| <= |t| {
        assert t[p..p + |w|][k] == t[p + k] && t[p..p + |w|][k + 1] == t[p + k + 1];
        assert t[p..p + |w|] != w;
      }
    }
  }

  const FindApples: string := "find apples under $3"

  /** The utterance has no capital letter. */
  lemma FindApplesIsLower()
    ensures Lower(FindApples) == FindApples
  {
    assert forall i :: 0 <= i < |FindApples| ==> LowerChar(FindApples[i]) == FindApples[i];
  }

  /** No remove verb occurs in the utterance. */
  lemma FindApplesNoRemove()
    ensures Match(RemovePhrase, FindApples).None?
  {
    NoPairNoStart(FindApples, "remove", 0);
    NoPairNoStart(FindApples, "delete", 4);
    NoPairNoStart(FindApples, "take off", 0);
    NoPairNoStart(FindApples, "cancel", 0);
    assert Prefix(RemovePhrase)[0].words == ["remove", "delete", "take off", "cancel"];
    NoVerbNoMatch(RemovePhrase, FindApples);
  }

  /** The one space after "find". */
  lemma FindApplesSpace()
    ensures Run(FindApples, 4, Space) == 1
  {
    assert FindApples[4] == ' ' && FindApples[5] == 'a';
    assert Run(FindApples, 5, Space) == 0;
  }

  /** The capture from the `a` on, and what follows it. */
  lemma FindApplesAfterCapture()
    ensures Run(FindApples, 5, Dot) > 0 && Run(FindApples, 6, Space) == 0
    ensures FindApples[5..6] == "a"
  {
    assert FindApples[5] == 'a' && FindApples[6] == 'p';
  }

  /** Of the search verbs only "find" starts the utterance. */
  lemma FindApplesVerb()
    ensures Alternatives(FindApples, 0, SearchVerbs) == [4]
  {
  }

  /** After "find" and one space, the search capture can start only at the `a` of "apples". */
  lemma FindApplesStarts()
    ensures CaptureStarts(SearchPhrase, FindApples, 0) == [5]
  {
    FindApplesVerb();
    FindApplesSpace();
    var fs := Prefix(SearchPhrase);
    assert fs[1..] == [Spaces] && fs[1..][1..] == [];
    var afterVerb := Step(FindApples, Words(SearchVerbs), [0]);
    assert afterVerb == [4] + Step(FindApples, Words(SearchVerbs), []) == [4];
    assert Plus(FindApples, 4, Space) == Greedy(4, 1) == [5];
    var afterSpaces := Step(FindApples, Spaces, afterVerb);
    assert afterSpaces == Plus(FindApples, 4, Space) + Step(FindApples, Spaces, []) == [5];
    assert Ends(FindApples, fs, [0]) == Ends(FindApples, fs[1..], afterVerb) == Ends(FindApples, [], afterSpaces);
  }

  /** From the `a`, the lazy search capture ends after one character. */
  lemma FindApplesEnd()
    ensures CaptureEnd(SearchPhrase, FindApples, 5) == Some(6)
  {
    FindApplesAfterCapture();
    assert TailOf(SearchPhrase, FindApples)(6);
  }

  /** The search pattern matches at 0 and captures the `a` of "apples" alone. */
  lemma FindApplesSearchMatch()
    ensures Match(SearchPhrase, FindApples) == Some(Span(0, 5, 6))
  {
    FindApplesStarts();
    FindApplesEnd();
    var qs := CaptureStarts(SearchPhrase, FindApples, 0);
    assert CapturesFrom(SearchPhrase, FindApples, qs)(0);
    assert CaptureAt(SearchPhrase, FindApples, 0) == Some(Span(0, 5, 6));
    assert MatchesAt(SearchPhrase, FindApples)(0);
  }

  /** "find apples under $3" is a search for `a` with no price ceiling. */
  lemma SearchApplesUnderThree()
    ensures Parse(FindApples) == Search("a", None)
  {
    FindApplesIsLower();
    FindApplesNoRemove();
    FindApplesSearchMatch();
    FirstMatchSingle(RemovePhrase, FindApples);
    FirstMatchSingle(SearchPhrase, FindApples);
    FindApplesAfterCapture();
    TrimOfTrimmed("a");
  }

  /** In text without line terminators, the run of `.` from any position reaches the end. */
  lemma DotRunToEnd(t: string, q: nat)
    requires forall i :: 0 <= i < |t| ==> !IsLineTerminator(t[i])
    requires q <= |t|
    ensures q + Run(t, q, Dot) == |t|
  {
    RunIsMaximal(t, q, Dot);
  }

  /** A text without the word "list" has no list suffix to cut. */
  lemma NoListNoSuffix(s: string)
    requires forall p: nat :: !StartsAt(s, p, "list")
    ensures forall p :: 0 <= p <= |s| ==> !ListSuffixAt(s, p)
  {
  }

  const TwoBottles: string := "add 2 bottles of water"

  /** The utterance has no capital letter and no line terminator. */
  lemma TwoBottlesIsPlain()
    ensures Lower(TwoBottles) == TwoBottles
    ensures forall i :: 0 <= i < |TwoBottles| ==> !IsLineTerminator(TwoBottles[i])
  {
    assert forall i :: 0 <= i < |TwoBottles| ==> LowerChar(TwoBottles[i]) == TwoBottles[i];
  }

  /** No remove verb occurs in the utterance. */
  lemma TwoBottlesNoRemove()
    ensures Match(RemovePhrase, TwoBottles).None?
  {
    NoPairNoStart(TwoBottles, "remove", 2);
    NoPairNoStart(TwoBottles, "delete", 0);
    NoPairNoStart(TwoBottles, "take off", 0);
    NoPairNoStart(TwoBottles, "cancel", 0);
    assert Prefix(RemovePhrase)[0].words == ["remove", "delete", "take off", "cancel"];
    NoVerbNoMatch(RemovePhrase, TwoBottles);
  }

  /** No search verb occurs in the utterance. */
  lemma TwoBottlesNoSearch()
    ensures Match(SearchPhrase, TwoBottles).None?
  {
    NoPairNoStart(TwoBottles, "find", 0);
    NoPairNoStart(TwoBottles, "search", 0);
    NoPairNoStart(TwoBottles, "look for", 0);
    NoPairNoStart(TwoBottles, "show me", 0);
    assert Prefix(SearchPhrase)[0].words == ["find", "search", "look for", "show me"];
    NoVerbNoMatch(SearchPhrase, TwoBottles);
  }

  /** The word "list" does not occur in the utterance. */
  lemma TwoBottlesNoList()
    ensures forall p: nat :: !StartsAt(TwoBottles, p, "list")
  {
    NoPairNoStart(TwoBottles, "list", 0);
  }

  /** Of the add verbs only "add" starts the utterance. */
  lemma TwoBottlesVerb()
    ensures Alternatives(TwoBottles, 0, AddVerbs) == [3]
  {
  }

  /** The space after "add", the digit and the space after it. */
  lemma TwoBottlesNumber()
    ensures Plus(TwoBottles, 3, Space) == [4]
    ensures OptionalNumber(TwoBottles, 4) == [6, 4]
  {
    assert TwoBottles[3] == ' ' && TwoBottles[4] == '2' && TwoBottles[5] == ' ' && TwoBottles[6] == 'b';
    assert Run(TwoBottles, 4, Space) == 0 && Run(TwoBottles, 3, Space) == 1;
    assert Run(TwoBottles, 5, Digit) == 0 && Run(TwoBottles, 4, Digit) == 1;
    assert Run(TwoBottles, 6, Space) == 0 && Run(TwoBottles, 5, Space) == 1;
    assert Plus(TwoBottles, 4, Digit) == [5];
    assert SpacesAfterEach(TwoBottles, [5]) == Plus(TwoBottles, 5, Space) + SpacesAfterEach(TwoBottles, []) == [6];
  }

  /** "bottles" starts at 6. */
  lemma TwoBottlesBottles()
    ensures StartsAt(TwoBottles, 6, "bottles")
  {
    assert TwoBottles[6..13] == "bottles";
    StartsAtIff(TwoBottles, 6, "bottles");
  }

  /** Four fragments one after another are four steps. */
  lemma EndsOfFour(t: string, f0: Fragment, f1: Fragment, f2: Fragment, f3: Fragment, xs: seq<nat>)
    ensures Ends(t, [f0, f1, f2, f3], xs) == Step(t, f3, Step(t, f2, Step(t, f1, Step(t, f0, xs))))
  {
    var y0 := Step(t, f0, xs);
    var y1 := Step(t, f1, y0);
    var y2 := Step(t, f2, y1);
    var y3 := Step(t, f3, y2);
    assert [f0, f1, f2, f3][1..] == [f1, f2, f3];
    assert [f1, f2, f3][1..] == [f2, f3];
    assert [f2, f3][1..] == [f3];
    assert [f3][1..] == [];
    assert Ends(t, [f3], y2) == Ends(t, [], y3) == y3;
    assert Ends(t, [f2, f3], y1) == Ends(t, [f3], y2);
    assert Ends(t, [f1, f2, f3], y0) == Ends(t, [f2, f3], y1);
    assert Ends(t, [f0, f1, f2, f3], xs) == Ends(t, [f1, f2, f3], y0);
  }

  /** The first position's choices are tried before the rest. */
  lemma StepFirst(t: string, f: Fragment, x: nat, xs: seq<nat>)
    ensures Step(t, f, [x] + xs) == Step(t, f, [x]) + Step(t, f, xs)
  {
    assert ([x] + xs)[1..] == xs;
    assert [x][1..] == [];
  }

  lemma TwoBottlesStepVerb()
    ensures Step(TwoBottles, Words(AddVerbs), [0]) == [3]
  {
    TwoBottlesVerb();
    assert Step(TwoBottles, Words(AddVerbs), [0]) == Alternatives(TwoBottles, 0, AddVerbs) + Step(TwoBottles, Words(AddVerbs), []);
  }

  lemma TwoBottlesStepSpaces()
    ensures Step(TwoBottles, Spaces, [3]) == [4]
  {
    TwoBottlesNumber();
    assert Step(TwoBottles, Spaces, [3]) == Plus(TwoBottles, 3, Space) + Step(TwoBottles, Spaces, []);
  }

  lemma TwoBottlesStepNumber()
    ensures Step(TwoBottles, NumberThenSpaces, [4]) == [6, 4]
  {
    TwoBottlesNumber();
    assert Step(TwoBottles, NumberThenSpaces, [4]) == OptionalNumber(TwoBottles, 4) + Step(TwoBottles, NumberThenSpaces, []);
  }

  /** The first capture start tried is 12, right after "bottle", inside "bottles". */
  lemma TwoBottlesFirstStart()
    ensures CaptureStarts(AddWithUnit, TwoBottles, 0) != [] && CaptureStarts(AddWithUnit, TwoBottles, 0)[0] == 12
  {
    EndsOfFour(TwoBottles, Words(AddVerbs), Spaces, NumberThenSpaces, Unit, [0]);
    TwoBottlesStepVerb();
    TwoBottlesStepSpaces();
    TwoBottlesStepNumber();
    StepFirst(TwoBottles, Unit, 6, [4]);
    assert Step(TwoBottles, Unit, [6]) == OptionalUnit(TwoBottles, 6) + Step(TwoBottles, Unit, []);
    TwoBottlesBottles();
    BottleBeforeBottles(TwoBottles, 6);
  }

  /** The unit pattern matches at 0 and captures "s of water". */
  lemma TwoBottlesMatch()
    ensures Match(AddWithUnit, TwoBottles) == Some(Span(0, 12, 22))
  {
    TwoBottlesIsPlain();
    TwoBottlesFirstStart();
    TwoBottlesNoList();
    FirstStartWins(AddWithUnit, TwoBottles, 0);
    DotRunToEnd(TwoBottles, 12);
    CaptureToEnd(AddWithUnit, TwoBottles, 12);
    assert CaptureAt(AddWithUnit, TwoBottles, 0) == Some(Span(0, 12, 22));
    assert MatchesAt(AddWithUnit, TwoBottles)(0);
  }

  /** The quantity is the 2 of the utterance. */
  lemma TwoBottlesQuantity()
    ensures Quantity(TwoBottles) == 2
  {
    assert TwoBottles[0] == 'a' && TwoBottles[1] == 'd' && TwoBottles[2] == 'd' && TwoBottles[3] == ' ';
    assert TwoBottles[4] == '2' && TwoBottles[5] == ' ';
    assert FirstDigit(TwoBottles, 0) == Some(4);
    assert Run(TwoBottles, 5, Digit) == 0;
    assert Run(TwoBottles, 4, Digit) == 1;
    assert TwoBottles[4..5] == "2";
    assert DecimalValue("2") == 10 * DecimalValue("") + DigitValue('2') == 2;
    assert NumberAt(TwoBottles, 4) == 2;
  }

  /** The capture has no white space at its ends and no list suffix, so its item name is itself. */
  lemma SOfWaterName()
    ensures ItemName(TwoBottles[12..22]) == "s of water"
  {
    var c := TwoBottles[12..22];
    assert c == "s of water";
    TrimOfTrimmed(c);
    NoPairNoStart(c, "list", 0);
    NoListNoSuffix(c);
    ItemNameWithoutSuffix(c);
  }

  /** "add 2 bottles of water" adds two of an item named "s of water". */
  lemma AddTwoBottlesOfWater()
    ensures Parse(TwoBottles) == Add("s of water", 2)
  {
    TwoBottlesIsPlain();
    TwoBottlesNoRemove();
    TwoBottlesNoSearch();
    TwoBottlesMatch();
    TwoBottlesQuantity();
    SOfWaterName();
    FirstMatchSingle(RemovePhrase, TwoBottles);
    FirstMatchSingle(SearchPhrase, TwoBottles);
    FirstMatchPair(AddWithUnit, AddAnything, TwoBottles);
  }
}
