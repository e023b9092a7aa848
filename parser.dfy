/**
 * The utterance parser of the voice shopping assistant (`processVoiceCommand`).
 *
 * The source classifies a lower-cased utterance with four regular expressions,
 * tried in a fixed order: the remove pattern, the search pattern, then the two
 * add patterns. Their meaning is written out here by hand. A regular-expression
 * search tries start positions from left to right; at each one it explores the
 * choices of the pattern in a fixed order (alternatives as listed, greedy
 * repetitions longest first, lazy ones shortest first, optional groups "present"
 * before "absent") and stops at the first choice that completes the pattern.
 * Each fragment of a pattern is modelled by the ordered list of positions it can
 * end at, so "the first choice that completes the pattern" is the first element
 * of such a list that leads to a complete match.
 */
module Parser {
  import opened Options
  import opened Text

  /** What an utterance asks for. */
  datatype Intent =
    | Add(name: string, quantity: nat)
    | Remove(fragment: string)
    | Search(query: string, maxPrice: Option<nat>)
    | Unrecognized

  const AddVerbs: seq<string> := ["add", "get", "buy", "i need", "i want", "purchase", "grab"]
  const RemoveVerbs: seq<string> := ["remove", "delete", "take off", "cancel"]
  const SearchVerbs: seq<string> := ["find", "search", "look for", "show me"]
  const UnitWords: seq<string> := ["bottle", "bottles", "can", "cans", "pound", "pounds", "lb", "lbs", "piece", "pieces"]
  const ListWords: seq<string> := ["to", "from", "my", "the", "a", "an"]

  // ---------------------------------------------------------------------------
  // Fragments as ordered lists of end positions
  // ---------------------------------------------------------------------------

  /** The ends a greedy repetition over a run of `run` matching characters from `i` tries: longest first, at least one. */
  function Greedy(i: nat, run: nat): (r: seq<nat>)
    ensures |r| == run
    ensures forall k :: 0 <= k < run ==> r[k] == i + run - k
  {
    if run == 0 then [] else [i + run] + Greedy(i, run - 1)
  }

  /** `\s+` or `\d+` from `i`. */
  function Plus(t: string, i: nat, k: Class): seq<nat> {
    Greedy(i, Run(t, i, k))
  }

  /** A choice of literal words, in the order listed. */
  function Alternatives(t: string, i: nat, words: seq<string>): seq<nat> {
    if words == [] then []
    else (if StartsAt(t, i, words[0]) then [i + |words[0]|] else []) + Alternatives(t, i, words[1..])
  }

  /** `\s+` after each of the positions `xs`, in order: every choice after `xs[0]` is tried before `xs[1]`. */
  function SpacesAfterEach(t: string, xs: seq<nat>): seq<nat> {
    if xs == [] then [] else Plus(t, xs[0], Space) + SpacesAfterEach(t, xs[1..])
  }

  /** `(?:\d+\s+)?` */
  function OptionalNumber(t: string, i: nat): seq<nat> {
    SpacesAfterEach(t, Plus(t, i, Digit)) + [i]
  }

  /** `(?:bottle|bottles|can|cans|pound|pounds|lb|lbs|piece|pieces|of\s+)?` */
  function OptionalUnit(t: string, i: nat): seq<nat> {
    Alternatives(t, i, UnitWords) + SpacesAfterEach(t, Alternatives(t, i, ["of"])) + [i]
  }

  /** The pieces of a pattern before its capture group. */
  datatype Fragment = Words(words: seq<string>) | Spaces | NumberThenSpaces | Unit

  /** The ends of fragment `f` from each of the positions `xs`, in order: every choice after `xs[0]` is tried before `xs[1]`. */
  function Step(t: string, f: Fragment, xs: seq<nat>): seq<nat> {
    if xs == [] then []
    else
      var here := match f
        case Words(ws) => Alternatives(t, xs[0], ws)
        case Spaces => Plus(t, xs[0], Space)
        case NumberThenSpaces => OptionalNumber(t, xs[0])
        case Unit => OptionalUnit(t, xs[0]);
      here + Step(t, f, xs[1..])
  }

  /** The ends of the fragments `fs`, one after another, from the positions `xs`, in trial order. */
  function Ends(t: string, fs: seq<Fragment>, xs: seq<nat>): seq<nat> {
    if fs == [] then xs else Ends(t, fs[1..], Step(t, fs[0], xs))
  }

  // ---------------------------------------------------------------------------
  // The four patterns
  // ---------------------------------------------------------------------------

  /**
   * AddWithUnit:  (?:add|get|buy|i need|i want|purchase|grab)\s+(?:\d+\s+)?(?:<unit>|of\s+)?(.+?)(?:\s+to\s+(?:my\s+)?list|$)
   * AddAnything:  (?:add|get|buy|i need|i want|purchase|grab)\s+(.+)
   * RemovePhrase: (?:remove|delete|take off|cancel)\s+(.+?)(?:\s+from\s+(?:my\s+)?list|$)
   * SearchPhrase: (?:find|search|look for|show me)\s+(.+?)(?:\s+under\s+\$?(\d+))?
   */
  datatype Pattern = AddWithUnit | AddAnything | RemovePhrase | SearchPhrase

  /** The fragments of `pat` before capture group 1. */
  function Prefix(pat: Pattern): seq<Fragment> {
    match pat
    case AddWithUnit => [Words(AddVerbs), Spaces, NumberThenSpaces, Unit]
    case AddAnything => [Words(AddVerbs), Spaces]
    case RemovePhrase => [Words(RemoveVerbs), Spaces]
    case SearchPhrase => [Words(SearchVerbs), Spaces]
  }

  /** Where capture group 1 may start when the match starts at `p`, in the order the choices are tried. */
  function CaptureStarts(pat: Pattern, t: string, p: nat): seq<nat> {
    Ends(t, Prefix(pat), [p])
  }

  /**
   * `\s+w\s+(?:my\s+)?list` matches at `e`. Each `\s+` here is followed by a letter,
   * so only its longest choice can succeed.
   */
  predicate ListPhraseAt(t: string, e: nat, w: string) {
    var a := e + Run(t, e, Space);
    var c := a + |w| + Run(t, a + |w|, Space);
    && Run(t, e, Space) > 0
    && StartsAt(t, a, w)
    && Run(t, a + |w|, Space) > 0
    && (StartsAt(t, c, "list")
        || (StartsAt(t, c, "my") && Run(t, c + 2, Space) > 0 && StartsAt(t, c + 2 + Run(t, c + 2, Space), "list")))
  }

  /** What must follow the lazy capture for the whole pattern to match. */
  predicate TailAt(pat: Pattern, t: string, e: nat) {
    match pat
    case AddWithUnit => ListPhraseAt(t, e, "to") || e == |t|
    case RemovePhrase => ListPhraseAt(t, e, "from") || e == |t|
    // an optional group always matches, possibly empty
    case SearchPhrase => true
    case AddAnything => true
  }

  /** The first position in `[lo, hi)` that passes `test`, scanning left to right. */
  function FirstWhere(test: nat -> bool, lo: nat, hi: nat): (r: Option<nat>)
    ensures r.Some? ==> lo <= r.value < hi && test(r.value)
    decreases hi - lo
  {
    if lo >= hi then None
    else if test(lo) then Some(lo)
    else FirstWhere(test, lo + 1, hi)
  }

  /** No position before the one `FirstWhere` reports passes, and none at all when it reports none. */
  lemma {:induction false} FirstWhereIsFirst(test: nat -> bool, lo: nat, hi: nat)
    ensures FirstWhere(test, lo, hi).Some? ==> forall j :: lo <= j < FirstWhere(test, lo, hi).value ==> !test(j)
    ensures FirstWhere(test, lo, hi).None? ==> forall j :: lo <= j < hi ==> !test(j)
    decreases hi - lo
  {
    if lo < hi && !test(lo) {
      FirstWhereIsFirst(test, lo + 1, hi);
    }
  }

  /** The tail of `pat` as a test on positions. */
  function TailOf(pat: Pattern, t: string): nat -> bool {
    (e: nat) => TailAt(pat, t, e)
  }

  /**
   * The end of capture group 1 when it starts at `q`, if the rest of the pattern can
   * match: the lazy `(.+?)` tries the ends `q + 1`, `q + 2`, ... up to the first line
   * terminator and takes the first the tail accepts; the greedy `(.+)` takes every
   * character up to the first line terminator.
   */
  function CaptureEnd(pat: Pattern, t: string, q: nat): (r: Option<nat>)
    ensures r.Some? ==> q < r.value <= |t|
  {
    if pat == AddAnything then
      if Run(t, q, Dot) > 0 then Some(q + Run(t, q, Dot)) else None
    else
      FirstWhere(TailOf(pat, t), q + 1, q + Run(t, q, Dot) + 1)
  }

  /** A match that begins at `at`, with capture group 1 from `start` to `end`. */
  datatype Span = Span(at: nat, start: nat, end: nat)

  /** Whether the capture can start at `qs[k]`, as a test on indices of `qs`. */
  function CapturesFrom(pat: Pattern, t: string, qs: seq<nat>): nat -> bool {
    (k: nat) => k < |qs| && CaptureEnd(pat, t, qs[k]).Some?
  }

  /** The match of `pat` that begins exactly at `p`: the first capture start, in trial order, that completes it. */
  function CaptureAt(pat: Pattern, t: string, p: nat): (r: Option<Span>)
    ensures r.Some? ==> r.value.at == p && r.value.start < r.value.end <= |t|
  {
    var qs := CaptureStarts(pat, t, p);
    match FirstWhere(CapturesFrom(pat, t, qs), 0, |qs|)
    case Some(k) => Some(Span(p, qs[k], CaptureEnd(pat, t, qs[k]).value))
    case None => None
  }

  /** Whether a match begins at `j`, as a test on positions. */
  function MatchesAt(pat: Pattern, t: string): nat -> bool {
    (j: nat) => CaptureAt(pat, t, j).Some?
  }

  /** Capture group 1 of `lowerText.match(pat)`: the match that begins at the leftmost position possible. */
  function Match(pat: Pattern, t: string): (r: Option<Span>)
    ensures r.Some? ==> r.value.start < r.value.end <= |t|
  {
    match FirstWhere(MatchesAt(pat, t), 0, |t| + 1)
    case Some(m) => CaptureAt(pat, t, m)
    case None => None
  }

  /** The lazy capture ends at the first position after `q` where the tail matches, within the run of non-terminators. */
  lemma CaptureEndIsShortest(pat: Pattern, t: string, q: nat)
    requires pat != AddAnything
    ensures CaptureEnd(pat, t, q).Some? ==>
              var e := CaptureEnd(pat, t, q).value;
              e <= q + Run(t, q, Dot) && TailAt(pat, t, e) && forall e' :: q < e' < e ==> !TailAt(pat, t, e')
    ensures CaptureEnd(pat, t, q).None? ==> forall e :: q < e <= q + Run(t, q, Dot) ==> !TailAt(pat, t, e)
  {
    var hi := q + Run(t, q, Dot) + 1;
    var r := FirstWhere(TailOf(pat, t), q + 1, hi);
    assert CaptureEnd(pat, t, q) == r;
    FirstWhereIsFirst(TailOf(pat, t), q + 1, hi);
    if r.Some? {
      assert TailOf(pat, t)(r.value);
      forall e | q < e < r.value
        ensures !TailAt(pat, t, e)
      {
        assert !TailOf(pat, t)(e);
      }
    } else {
      forall e | q < e < hi
        ensures !TailAt(pat, t, e)
      {
        assert !TailOf(pat, t)(e);
      }
    }
  }

  /** The greedy capture takes every character up to the first line terminator or the end. */
  lemma CaptureEndIsLongest(t: string, q: nat)
    ensures CaptureEnd(AddAnything, t, q).Some? <==> q < |t| && !IsLineTerminator(t[q])
    ensures CaptureEnd(AddAnything, t, q).Some? ==>
              var e := CaptureEnd(AddAnything, t, q).value;
              (forall i :: q <= i < e ==> !IsLineTerminator(t[i])) && (e == |t| || IsLineTerminator(t[e]))
  {
    RunIsMaximal(t, q, Dot);
  }

  /** The match at `p` uses the first capture start, in trial order, from which the rest of the pattern matches. */
  lemma CaptureAtIsFirst(pat: Pattern, t: string, p: nat)
    ensures CaptureAt(pat, t, p).Some? ==>
              var sp := CaptureAt(pat, t, p).value;
              exists k :: 0 <= k < |CaptureStarts(pat, t, p)| && CaptureStarts(pat, t, p)[k] == sp.start
                          && CaptureEnd(pat, t, sp.start) == Some(sp.end)
                          && forall j :: 0 <= j < k ==> CaptureEnd(pat, t, CaptureStarts(pat, t, p)[j]).None?
    ensures CaptureAt(pat, t, p).None? ==> forall q :: q in CaptureStarts(pat, t, p) ==> CaptureEnd(pat, t, q).None?
  {
    var qs := CaptureStarts(pat, t, p);
    FirstWhereIsFirst(CapturesFrom(pat, t, qs), 0, |qs|);
    assert forall i {:trigger qs[i]} :: 0 <= i < |qs| ==> CapturesFrom(pat, t, qs)(i) == CaptureEnd(pat, t, qs[i]).Some?;
  }

  /** `match` reports the leftmost position where the pattern matches. */
  lemma MatchIsLeftmost(pat: Pattern, t: string)
    ensures Match(pat, t).Some? ==>
              var m := Match(pat, t).value.at;
              m <= |t| && CaptureAt(pat, t, m) == Match(pat, t) && forall j :: 0 <= j < m ==> CaptureAt(pat, t, j).None?
    ensures Match(pat, t).None? ==> forall j :: 0 <= j <= |t| ==> CaptureAt(pat, t, j).None?
  {
    FirstWhereIsFirst(MatchesAt(pat, t), 0, |t| + 1);
    assert forall j {:trigger CaptureAt(pat, t, j)} :: MatchesAt(pat, t)(j) == CaptureAt(pat, t, j).Some?;
  }

  const RemovePatterns: seq<Pattern> := [RemovePhrase]
  const SearchPatterns: seq<Pattern> := [SearchPhrase]
  const AddPatterns: seq<Pattern> := [AddWithUnit, AddAnything]

  /** The capture of the first pattern of a table that matches, tried in table order. */
  function FirstMatch(pats: seq<Pattern>, t: string): (r: Option<Span>)
    ensures r.Some? ==> r.value.start < r.value.end <= |t|
  {
    if pats == [] then None
    else if Match(pats[0], t).Some? then Match(pats[0], t)
    else FirstMatch(pats[1..], t)
  }

  // ---------------------------------------------------------------------------
  // Quantity, price ceiling and clean-up
  // ---------------------------------------------------------------------------

  /** The leftmost digit at or after `i`. */
  function FirstDigit(t: string, i: nat): (r: Option<nat>)
    ensures r.Some? ==> i <= r.value < |t| && IsDigit(t[r.value])
                        && forall j :: i <= j < r.value ==> !IsDigit(t[j])
    ensures r.None? ==> forall j :: i <= j < |t| ==> !IsDigit(t[j])
    decreases |t| - i
  {
    if i >= |t| then None
    else if IsDigit(t[i]) then Some(i)
    else FirstDigit(t, i + 1)
  }

  /** The value of the run of digits at `f`, as `parseInt` reads it. */
  function NumberAt(t: string, f: nat): nat {
    RunIsMaximal(t, f, Digit);
    if f <= |t| then
      var digits := t[f..f + Run(t, f, Digit)];
      assert forall i :: 0 <= i < |digits| ==> digits[i] == t[f + i];
      DecimalValue(digits)
    else 0
  }

  /**
   * The quantity: `(\d+)\s*(<unit>|)\s*(of\s*)?` matches as soon as `\d+` does,
   * so the match is the longest digit run at the first digit; without a digit
   * the quantity is 1. Nothing forces it to be positive.
   */
  function Quantity(t: string): (n: nat)
    ensures (forall i :: 0 <= i < |t| ==> !IsDigit(t[i])) ==> n == 1
    ensures forall f :: 0 <= f < |t| && IsDigit(t[f]) && (forall i :: 0 <= i < f ==> !IsDigit(t[i]))
                        ==> n == NumberAt(t, f)
  {
    match FirstDigit(t, 0)
    case None => 1
    case Some(f) => NumberAt(t, f)
  }

  /**
   * `(?:\s+under\s+\$?(\d+))?` at `e`: the value of capture group 2 when the group
   * matches. Each `\s+` is followed by a letter, `$` or a digit, and nothing follows
   * `(\d+)`, so only the longest choices can succeed.
   */
  function PriceAt(t: string, e: nat): (r: Option<nat>) {
    var a := e + Run(t, e, Space);
    var b := a + 5;
    var c := b + Run(t, b, Space);
    var d := if StartsAt(t, c, "$") then c + 1 else c;
    if Run(t, e, Space) == 0 || !StartsAt(t, a, "under") || Run(t, b, Space) == 0 || Run(t, d, Digit) == 0 then None
    else Some(NumberAt(t, d))
  }

  /** One of the words `to from my the a an`, then `\s+list` and the end of the text, from `a` on. */
  predicate WordThenList(s: string, a: nat, w: string) {
    var b := a + |w|;
    StartsAt(s, a, w) && Run(s, b, Space) > 0 && b + Run(s, b, Space) + 4 == |s|
    && StartsAt(s, b + Run(s, b, Space), "list")
  }

  /** `\s+(to|from|my|the|a|an)\s+list$` matches at `p`. */
  predicate ListSuffixAt(s: string, p: nat) {
    Run(s, p, Space) > 0 && exists w :: w in ListWords && WordThenList(s, p + Run(s, p, Space), w)
  }

  function FirstListSuffix(s: string, p: nat): (r: Option<nat>)
    ensures r.Some? ==> p <= r.value < |s| && ListSuffixAt(s, r.value)
                        && forall j :: p <= j < r.value ==> !ListSuffixAt(s, j)
    ensures r.None? ==> forall j :: p <= j <= |s| ==> !ListSuffixAt(s, j)
    decreases |s| + 1 - p
  {
    if p > |s| then None
    else if ListSuffixAt(s, p) then Some(p)
    else FirstListSuffix(s, p + 1)
  }

  /**
   * `itemName.replace(/\s+(to|from|my|the|a|an)\s+list$/i, '')`: the text is cut at
   * the leftmost position where such a suffix starts, once; without one it is kept.
   */
  function StripListSuffix(s: string): (r: string)
    ensures (forall p :: 0 <= p <= |s| ==> !ListSuffixAt(s, p)) ==> r == s
    ensures r != s ==> exists p :: 0 <= p < |s| && r == s[..p] && ListSuffixAt(s, p)
                                 && forall j :: 0 <= j < p ==> !ListSuffixAt(s, j)
    ensures FirstListSuffix(s, 0).Some? ==> r == s[..FirstListSuffix(s, 0).value]
    ensures (exists p :: 0 <= p <= |s| && ListSuffixAt(s, p)) ==> |r| < |s| && r == s[..|r|]
  {
    match FirstListSuffix(s, 0)
    case None => s
    case Some(p) => s[..p]
  }

  /** The item phrase an add pattern captured, after `trim`, the clean-up and `trim` again. */
  function ItemName(capture: string): (r: string)
    ensures r == [] || (!IsSpace(r[0]) && !IsSpace(r[|r| - 1]))
  {
    Trim(StripListSuffix(Trim(capture)))
  }

  // ---------------------------------------------------------------------------
  // The parser
  // ---------------------------------------------------------------------------

  /** `processVoiceCommand`'s classification of the lower-cased text: remove, then search, then add, else not understood. */
  function Classify(t: string): Intent {
    match FirstMatch(RemovePatterns, t)
    case Some(sp) => Remove(Trim(t[sp.start..sp.end]))
    case None =>
      match FirstMatch(SearchPatterns, t)
      case Some(sp) => Search(Trim(t[sp.start..sp.end]), PriceAt(t, sp.end))
      case None =>
        match FirstMatch(AddPatterns, t)
        case Some(sp) => Add(ItemName(t[sp.start..sp.end]), Quantity(t))
        case None => Unrecognized
  }

  /** `processVoiceCommand`: the utterance is lower-cased once, then classified. */
  function Parse(text: string): Intent {
    Classify(Lower(text))
  }

  /** The parser as the source runs it: a loop over each pattern table with an early return. */
  method Interpret(text: string) returns (intent: Intent)
    ensures intent == Parse(text)
  {
    var t := Lower(text);
    var quantity := Quantity(t);
    for i := 0 to |RemovePatterns|
      invariant forall j :: 0 <= j < i ==> Match(RemovePatterns[j], t).None?
    {
      var m := Match(RemovePatterns[i], t);
      if m.Some? {
        FirstMatchIsFirst(RemovePatterns, t, i);
        return Remove(Trim(t[m.value.start..m.value.end]));
      }
    }
    FirstMatchNone(RemovePatterns, t);
    for i := 0 to |SearchPatterns|
      invariant forall j :: 0 <= j < i ==> Match(SearchPatterns[j], t).None?
    {
      var m := Match(SearchPatterns[i], t);
      if m.Some? {
        FirstMatchIsFirst(SearchPatterns, t, i);
        var maxPrice := PriceAt(t, m.value.end);
        return Search(Trim(t[m.value.start..m.value.end]), maxPrice);
      }
    }
    FirstMatchNone(SearchPatterns, t);
    for i := 0 to |AddPatterns|
      invariant forall j :: 0 <= j < i ==> Match(AddPatterns[j], t).None?
    {
      var m := Match(AddPatterns[i], t);
      if m.Some? {
        FirstMatchIsFirst(AddPatterns, t, i);
        var itemName := Trim(t[m.value.start..m.value.end]);
        itemName := Trim(StripListSuffix(itemName));
        return Add(itemName, quantity);
      }
    }
    FirstMatchNone(AddPatterns, t);
    return Unrecognized;
  }

  /** A table of one pattern reports that pattern's capture. */
  lemma FirstMatchSingle(pat: Pattern, t: string)
    ensures FirstMatch([pat], t) == Match(pat, t)
  {
    assert [pat][1..] == [];
  }

  /** A table of two patterns reports the first one's capture, or else the second one's. */
  lemma FirstMatchPair(first: Pattern, second: Pattern, t: string)
    ensures FirstMatch([first, second], t) == if Match(first, t).Some? then Match(first, t) else Match(second, t)
  {
    assert [first, second][1..] == [second];
    FirstMatchSingle(second, t);
  }

  /** The first pattern that matches decides the capture. */
  lemma {:induction false} FirstMatchIsFirst(pats: seq<Pattern>, t: string, i: nat)
    requires i < |pats| && Match(pats[i], t).Some?
    requires forall j :: 0 <= j < i ==> Match(pats[j], t).None?
    ensures FirstMatch(pats, t) == Match(pats[i], t)
  {
    if i > 0 {
      FirstMatchIsFirst(pats[1..], t, i - 1);
    }
  }

  lemma {:induction false} FirstMatchNone(pats: seq<Pattern>, t: string)
    requires forall j :: 0 <= j < |pats| ==> Match(pats[j], t).None?
    ensures FirstMatch(pats, t).None?
  {
    if pats != [] {
      FirstMatchNone(pats[1..], t);
    }
  }

  // ---------------------------------------------------------------------------
  // Properties of the patterns
  // ---------------------------------------------------------------------------

  /**
   * A lazy capture (remove, search and the first add pattern) starts at one of the
   * positions the prefix allows, contains no line terminator, is followed by the
   * pattern's tail, and no shorter capture from the same start is.
   */
  lemma LazyCaptureIsShortest(pat: Pattern, t: string)
    requires pat != AddAnything
    ensures Match(pat, t).Some? ==>
              var sp := Match(pat, t).value;
              && sp.start in CaptureStarts(pat, t, sp.at)
              && TailAt(pat, t, sp.end)
              && (forall e :: sp.start < e < sp.end ==> !TailAt(pat, t, e))
              && (forall i :: sp.start <= i < sp.end ==> !IsLineTerminator(t[i]))
  {
    MatchIsLeftmost(pat, t);
    if Match(pat, t).Some? {
      var sp := Match(pat, t).value;
      CaptureAtIsFirst(pat, t, sp.at);
      CaptureEndIsShortest(pat, t, sp.start);
      RunIsMaximal(t, sp.start, Dot);
    }
  }

  /** The search pattern's capture is always exactly one character: its tail accepts any position. */
  lemma SearchCaptureIsOneCharacter(t: string)
    ensures Match(SearchPhrase, t).Some? ==> Match(SearchPhrase, t).value.end == Match(SearchPhrase, t).value.start + 1
  {
    if Match(SearchPhrase, t).Some? {
      var sp := Match(SearchPhrase, t).value;
      LazyCaptureIsShortest(SearchPhrase, t);
      if sp.end != sp.start + 1 {
        assert TailAt(SearchPhrase, t, sp.start + 1);
      }
    }
  }

  /** Hence a search query is at most one character long. */
  lemma SearchQueryAtMostOneCharacter(t: string)
    ensures Classify(t).Search? ==> |Classify(t).query| <= 1
  {
    FirstMatchSingle(RemovePhrase, t);
    FirstMatchSingle(SearchPhrase, t);
    if Classify(t).Search? {
      SearchCaptureIsOneCharacter(t);
      var sp := Match(SearchPhrase, t).value;
      assert Classify(t).query == Trim(t[sp.start..sp.end]);
    }
  }

  /** Skipping an optional fragment is always among its choices. */
  lemma {:induction false} StepKeeps(t: string, f: Fragment, xs: seq<nat>, x: nat)
    requires f == NumberThenSpaces || f == Unit
    requires x in xs
    ensures x in Step(t, f, xs)
  {
    if xs[0] != x {
      StepKeeps(t, f, xs[1..], x);
    }
  }

  /** Every start the second add pattern tries is also tried by the first. */
  lemma AddStartsIncluded(t: string, p: nat, q: nat)
    requires q in CaptureStarts(AddAnything, t, p)
    ensures q in CaptureStarts(AddWithUnit, t, p)
  {
    var verb := Step(t, Words(AddVerbs), [p]);
    var afterVerb := Step(t, Spaces, verb);
    var afterNumber := Step(t, NumberThenSpaces, afterVerb);
    var w: seq<Fragment> := [Words(AddVerbs), Spaces, NumberThenSpaces, Unit];
    assert w[1..][1..] == [NumberThenSpaces, Unit];
    assert w[1..][1..][1..] == [Unit];
    assert Ends(t, [Spaces], verb) == Ends(t, [], afterVerb) == afterVerb;
    assert CaptureStarts(AddAnything, t, p) == afterVerb;
    assert Ends(t, [Unit], afterNumber) == Step(t, Unit, afterNumber);
    assert Ends(t, [NumberThenSpaces, Unit], afterVerb) == Step(t, Unit, afterNumber);
    assert Ends(t, w[1..], verb) == Step(t, Unit, afterNumber);
    assert CaptureStarts(AddWithUnit, t, p) == Step(t, Unit, afterNumber);
    StepKeeps(t, NumberThenSpaces, afterVerb, q);
    StepKeeps(t, Unit, afterNumber, q);
  }

  /** Where the text has no line terminator, a lazy capture with a list-phrase tail can start anywhere before the end. */
  lemma LazyCaptureAlwaysEnds(pat: Pattern, t: string, q: nat)
    requires pat == AddWithUnit || pat == RemovePhrase
    requires forall i :: 0 <= i < |t| ==> !IsLineTerminator(t[i])
    requires q < |t|
    ensures CaptureEnd(pat, t, q).Some?
  {
    RunIsMaximal(t, q, Dot);
    FirstWhereIsFirst(TailOf(pat, t), q + 1, q + Run(t, q, Dot) + 1);
    assert TailOf(pat, t)(|t|);
  }

  /**
   * The second add pattern matters only when the text has a line terminator:
   * otherwise, whenever it matches, so does the first, which is tried before it.
   */
  lemma AddAnythingNeedsLineTerminator(t: string)
    requires forall i :: 0 <= i < |t| ==> !IsLineTerminator(t[i])
    ensures Match(AddAnything, t).Some? ==> Match(AddWithUnit, t).Some?
  {
    if Match(AddAnything, t).Some? {
      var sp := Match(AddAnything, t).value;
      MatchIsLeftmost(AddAnything, t);
      CaptureAtIsFirst(AddAnything, t, sp.at);
      AddStartsIncluded(t, sp.at, sp.start);
      LazyCaptureAlwaysEnds(AddWithUnit, t, sp.start);
      CaptureAtIsFirst(AddWithUnit, t, sp.at);
      MatchIsLeftmost(AddWithUnit, t);
    }
  }

  /**
   * The tables are tried in the order remove, search, add; the first that matches
   * decides the intent, and the quantity is the one read from the whole utterance.
   */
  lemma CommandPriority(t: string)
    ensures Classify(t).Remove? <==> Match(RemovePhrase, t).Some?
    ensures Classify(t).Search? <==> Match(RemovePhrase, t).None? && Match(SearchPhrase, t).Some?
    ensures Classify(t).Add? <==>
              && Match(RemovePhrase, t).None? && Match(SearchPhrase, t).None?
              && (Match(AddWithUnit, t).Some? || Match(AddAnything, t).Some?)
    ensures Classify(t).Add? ==> Classify(t).quantity == Quantity(t)
    ensures Classify(t).Remove? ==>
              var sp := Match(RemovePhrase, t).value;
              Classify(t).fragment == Trim(t[sp.start..sp.end])
    ensures Classify(t).Search? ==>
              var sp := Match(SearchPhrase, t).value;
              Classify(t).query == Trim(t[sp.start..sp.end]) && Classify(t).maxPrice == PriceAt(t, sp.end)
    ensures Classify(t).Add? ==>
              var sp := if Match(AddWithUnit, t).Some? then Match(AddWithUnit, t).value else Match(AddAnything, t).value;
              Classify(t).name == ItemName(t[sp.start..sp.end])
  {
    FirstMatchSingle(RemovePhrase, t);
    FirstMatchSingle(SearchPhrase, t);
    FirstMatchPair(AddWithUnit, AddAnything, t);
  }

  /** Without a list suffix the clean-up changes nothing, and the second `trim` finds a trimmed text. */
  lemma ItemNameWithoutSuffix(capture: string)
    requires forall p :: 0 <= p <= |Trim(capture)| ==> !ListSuffixAt(Trim(capture), p)
    ensures ItemName(capture) == Trim(capture)
  {
    TrimOfTrimmed(Trim(capture));
  }

  /** `trim` of a lower-cased text is lower-cased. */
  lemma TrimKeepsLower(s: string)
    requires Lower(s) == s
    ensures Lower(Trim(s)) == Trim(s)
  {
    LowerSlice(s, |s| - |TrimStart(s)|, |s| - |TrimStart(s)| + |Trim(s)|);
  }

  /** The clean-up of a lower-cased text is lower-cased. */
  lemma StripKeepsLower(s: string)
    requires Lower(s) == s
    ensures Lower(StripListSuffix(s)) == StripListSuffix(s)
  {
    var r := StripListSuffix(s);
    if FirstListSuffix(s, 0).Some? {
      LowerSlice(s, 0, FirstListSuffix(s, 0).value);
    }
  }

  /**
   * Every phrase the parser hands on is already lower-cased, so the handlers'
   * own `toLowerCase` of the name, fragment or query changes nothing.
   */
  lemma IntentIsLowerCase(text: string)
    ensures Parse(text).Remove? ==> Lower(Parse(text).fragment) == Parse(text).fragment
    ensures Parse(text).Search? ==> Lower(Parse(text).query) == Parse(text).query
    ensures Parse(text).Add? ==> Lower(Parse(text).name) == Parse(text).name
  {
    var t := Lower(text);
    LowerIdempotent(text);
    match FirstMatch(RemovePatterns, t)
    case Some(sp) =>
      LowerSlice(t, sp.start, sp.end);
      TrimKeepsLower(t[sp.start..sp.end]);
    case None =>
      match FirstMatch(SearchPatterns, t)
      case Some(sp) =>
        LowerSlice(t, sp.start, sp.end);
        TrimKeepsLower(t[sp.start..sp.end]);
      case None =>
        match FirstMatch(AddPatterns, t)
        case Some(sp) =>
          var c := t[sp.start..sp.end];
          LowerSlice(t, sp.start, sp.end);
          TrimKeepsLower(c);
          StripKeepsLower(Trim(c));
          TrimKeepsLower(StripListSuffix(Trim(c)));
        case None =>
  }
}
