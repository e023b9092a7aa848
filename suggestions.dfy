/**
 * `generateSmartSuggestions`: up to four items to suggest, first from the purchase
 * history, then from the seasonal catalog entries, skipping what is already on the
 * list. Each eligible candidate is kept or dropped by one draw of a random number;
 * the draws are an injected sequence of coins, the k-th draw (counted from 0 over
 * the eligible candidates only) keeping its candidate exactly when `coins[k]` is
 * true. A missing coin counts as false.
 */
module Suggestions {
  import opened Text
  import Catalog
  import opened ShoppingList

  /** `type: 'history'` with reason "frequently purchased", `type: 'seasonal'` with reason "seasonal & fresh". */
  datatype Reason = History | Seasonal

  datatype Suggestion = Suggestion(item: string, reason: Reason)

  /** `suggested.slice(0, 4)`. */
  const Limit: nat := 4

  /** Whether the k-th draw is above its threshold. */
  predicate Coin(coins: seq<bool>, k: nat) {
    k < |coins| && coins[k]
  }

  /** The seasonal test `i.name.toLowerCase() === name`: the catalog key is compared as it is. */
  predicate KeyOnList(list: seq<Item>, key: string) {
    exists j :: 0 <= j < |list| && Lower(list[j].name) == key
  }

  /** The history entries with no item of the same name, case-insensitively, on the list, in history order. */
  function HistoryCandidates(list: seq<Item>, history: seq<string>): seq<string> {
    if history == [] then []
    else
      var last := history[|history| - 1];
      HistoryCandidates(list, history[..|history| - 1]) + if FindByName(list, last).None? then [last] else []
  }

  /** The keys of the seasonal entries among `entries` that are not on the list, in catalog order. */
  function SeasonalCandidates(list: seq<Item>, entries: seq<Catalog.Entry>): seq<string> {
    if entries == [] then []
    else
      var last := entries[|entries| - 1];
      SeasonalCandidates(list, entries[..|entries| - 1]) + if last.seasonal && !KeyOnList(list, last.name) then [last.name] else []
  }

  /** The candidates whose draws come out true, the first draw being number `first`. */
  function Keep(candidates: seq<string>, coins: seq<bool>, first: nat, reason: Reason): seq<Suggestion> {
    if candidates == [] then []
    else
      var n := |candidates| - 1;
      Keep(candidates[..n], coins, first, reason) + if Coin(coins, first + n) then [Suggestion(candidates[n], reason)] else []
  }

  /** Every suggestion kept from the history candidates and the seasonal candidates among `entries`, before the cut to four. */
  function Picked(list: seq<Item>, history: seq<string>, coins: seq<bool>, entries: seq<Catalog.Entry>): seq<Suggestion> {
    var h := HistoryCandidates(list, history);
    Keep(h, coins, 0, History) + Keep(SeasonalCandidates(list, entries), coins, |h|, Seasonal)
  }

  /** `slice(0, 4)`. */
  function Cut(p: seq<Suggestion>): seq<Suggestion> {
    if |p| <= Limit then p else p[..Limit]
  }

  /** The suggestions shown for this list, history and sequence of draws. */
  function SmartSuggestions(list: seq<Item>, history: seq<string>, coins: seq<bool>): seq<Suggestion> {
    Cut(Picked(list, history, coins, Catalog.Entries))
  }

  /**
   * `generateSmartSuggestions`: the two `forEach` loops that push onto `suggested`,
   * then the cut to four. `entries` is the catalog the second loop walks,
   * `Catalog.Entries` at every call, so the result is `SmartSuggestions(list, history, coins)` there.
   */
  method GenerateSmartSuggestions(list: seq<Item>, history: seq<string>, coins: seq<bool>, entries: seq<Catalog.Entry>)
    returns (suggested: seq<Suggestion>)
    ensures suggested == Cut(Picked(list, history, coins, entries))
    ensures |suggested| <= Limit
  {
    var draws;
    suggested, draws := PushHistory(list, history, coins);
    suggested, draws := PushSeasonal(list, entries, coins, draws, suggested);
    if |suggested| > Limit {
      suggested := suggested[..Limit];
    }
  }

  /** The first loop: each history entry not on the list draws once and is pushed when its draw is true. */
  method PushHistory(list: seq<Item>, history: seq<string>, coins: seq<bool>) returns (suggested: seq<Suggestion>, draws: nat)
    ensures suggested == Keep(HistoryCandidates(list, history), coins, 0, History)
    ensures draws == |HistoryCandidates(list, history)|
  {
    suggested := [];
    draws := 0;
    for i := 0 to |history|
      invariant draws == |HistoryCandidates(list, history[..i])|
      invariant suggested == Keep(HistoryCandidates(list, history[..i]), coins, 0, History)
    {
      HistoryStep(list, history, i);
      var item := history[i];
      if FindByName(list, item).None? {
        KeepStep(HistoryCandidates(list, history[..i]), item, coins, 0, History);
        if Coin(coins, draws) {
          suggested := suggested + [Suggestion(item, History)];
        }
        draws := draws + 1;
      }
    }
    assert history[..|history|] == history;
  }

  /**
   * The second loop: each seasonal entry not on the list draws once, the draws
   * numbered on from `first`, and is pushed onto `before` when its draw is true.
   */
  method PushSeasonal(list: seq<Item>, entries: seq<Catalog.Entry>, coins: seq<bool>, first: nat, before: seq<Suggestion>)
    returns (suggested: seq<Suggestion>, draws: nat)
    ensures suggested == before + Keep(SeasonalCandidates(list, entries), coins, first, Seasonal)
    ensures draws == first + |SeasonalCandidates(list, entries)|
  {
    suggested := before;
    draws := first;
    for j := 0 to |entries|
      invariant draws == first + |SeasonalCandidates(list, entries[..j])|
      invariant suggested == before + Keep(SeasonalCandidates(list, entries[..j]), coins, first, Seasonal)
    {
      SeasonalStep(list, entries, j);
      var entry := entries[j];
      if entry.seasonal && !KeyOnList(list, entry.name) {
        KeepStep(SeasonalCandidates(list, entries[..j]), entry.name, coins, first, Seasonal);
        if Coin(coins, draws) {
          suggested := suggested + [Suggestion(entry.name, Seasonal)];
        }
        draws := draws + 1;
      }
    }
    assert entries[..|entries|] == entries;
  }

  /** One more history entry adds at most that entry to the candidates. */
  lemma HistoryStep(list: seq<Item>, history: seq<string>, i: nat)
    requires i < |history|
    ensures FindByName(list, history[i]).None? ==>
              HistoryCandidates(list, history[..i + 1]) == HistoryCandidates(list, history[..i]) + [history[i]]
    ensures FindByName(list, history[i]).Some? ==>
              HistoryCandidates(list, history[..i + 1]) == HistoryCandidates(list, history[..i])
  {
    assert history[..i + 1][..i] == history[..i];
  }

  /** One more catalog entry adds at most its key to the candidates. */
  lemma SeasonalStep(list: seq<Item>, entries: seq<Catalog.Entry>, j: nat)
    requires j < |entries|
    ensures entries[j].seasonal && !KeyOnList(list, entries[j].name) ==>
              SeasonalCandidates(list, entries[..j + 1]) == SeasonalCandidates(list, entries[..j]) + [entries[j].name]
    ensures !(entries[j].seasonal && !KeyOnList(list, entries[j].name)) ==>
              SeasonalCandidates(list, entries[..j + 1]) == SeasonalCandidates(list, entries[..j])
  {
    assert entries[..j + 1][..j] == entries[..j];
  }

  /** One more candidate is kept exactly when its draw, the next one, comes out true. */
  lemma KeepStep(candidates: seq<string>, x: string, coins: seq<bool>, first: nat, reason: Reason)
    ensures Coin(coins, first + |candidates|) ==>
              Keep(candidates + [x], coins, first, reason) == Keep(candidates, coins, first, reason) + [Suggestion(x, reason)]
    ensures !Coin(coins, first + |candidates|) ==>
              Keep(candidates + [x], coins, first, reason) == Keep(candidates, coins, first, reason)
  {
    assert (candidates + [x])[..|candidates|] == candidates;
  }

  // ---------------------------------------------------------------------------
  // Properties
  // ---------------------------------------------------------------------------

  /** A history candidate is in the history and has no item of its name on the list. */
  lemma {:induction false} HistoryCandidatesSound(list: seq<Item>, history: seq<string>)
    ensures forall x :: x in HistoryCandidates(list, history) ==> x in history && FindByName(list, x).None?
  {
    if history != [] {
      HistoryCandidatesSound(list, history[..|history| - 1]);
    }
  }

  /** A seasonal candidate is the key of a seasonal entry that no item on the list has as its lower-cased name. */
  lemma {:induction false} SeasonalCandidatesSound(list: seq<Item>, entries: seq<Catalog.Entry>)
    ensures forall x :: x in SeasonalCandidates(list, entries) ==>
              !KeyOnList(list, x) && exists e :: e in entries && e.seasonal && e.name == x
  {
    if entries != [] {
      SeasonalCandidatesSound(list, entries[..|entries| - 1]);
    }
  }

  /** What is kept carries the given reason and is one of the candidates. */
  lemma {:induction false} KeepSound(candidates: seq<string>, coins: seq<bool>, first: nat, reason: Reason)
    ensures forall i :: 0 <= i < |Keep(candidates, coins, first, reason)| ==>
              Keep(candidates, coins, first, reason)[i].reason == reason && Keep(candidates, coins, first, reason)[i].item in candidates
  {
    if candidates != [] {
      var n := |candidates| - 1;
      KeepSound(candidates[..n], coins, first, reason);
      assert forall x :: x in candidates[..n] ==> x in candidates;
    }
  }

  /** With no draw above its threshold, nothing is suggested. */
  lemma {:induction false} KeepNone(candidates: seq<string>, coins: seq<bool>, first: nat, reason: Reason)
    requires forall k :: first <= k < first + |candidates| ==> !Coin(coins, k)
    ensures Keep(candidates, coins, first, reason) == []
  {
    if candidates != [] {
      KeepNone(candidates[..|candidates| - 1], coins, first, reason);
    }
  }

  /** With every draw above its threshold, every candidate is kept, in order. */
  lemma {:induction false} KeepAll(candidates: seq<string>, coins: seq<bool>, first: nat, reason: Reason)
    requires forall k :: first <= k < first + |candidates| ==> Coin(coins, k)
    ensures |Keep(candidates, coins, first, reason)| == |candidates|
    ensures forall i :: 0 <= i < |candidates| ==> Keep(candidates, coins, first, reason)[i] == Suggestion(candidates[i], reason)
  {
    if candidates != [] {
      var n := |candidates| - 1;
      KeepAll(candidates[..n], coins, first, reason);
    }
  }

  /**
   * Before the cut, every history suggestion comes before every seasonal one; a
   * history suggestion is a history entry with no item of that name on the list; a
   * seasonal suggestion is the key of a seasonal entry that is not on the list.
   */
  lemma PickedShape(list: seq<Item>, history: seq<string>, coins: seq<bool>, entries: seq<Catalog.Entry>)
    ensures var p := Picked(list, history, coins, entries);
            && (forall i, j :: 0 <= i < j < |p| && p[j].reason == History ==> p[i].reason == History)
            && (forall i :: 0 <= i < |p| && p[i].reason == History ==> p[i].item in history && FindByName(list, p[i].item).None?)
            && (forall i :: 0 <= i < |p| && p[i].reason == Seasonal ==>
                  !KeyOnList(list, p[i].item) && exists e :: e in entries && e.seasonal && e.name == p[i].item)
  {
    var h := HistoryCandidates(list, history);
    var sc := SeasonalCandidates(list, entries);
    var a := Keep(h, coins, 0, History);
    var b := Keep(sc, coins, |h|, Seasonal);
    HistoryCandidatesSound(list, history);
    SeasonalCandidatesSound(list, entries);
    KeepSound(h, coins, 0, History);
    KeepSound(sc, coins, |h|, Seasonal);
    var p := a + b;
    assert forall i :: 0 <= i < |p| ==> (i < |a| ==> p[i] == a[i]) && (|a| <= i ==> p[i] == b[i - |a|]);
  }

  /**
   * The suggestions are at most four; every history suggestion comes before every
   * seasonal one; a history suggestion is a history entry with no item of that name
   * on the list; a seasonal suggestion is the key of a seasonal catalog entry that is
   * not on the list.
   */
  lemma SuggestionsShape(list: seq<Item>, history: seq<string>, coins: seq<bool>)
    ensures var s := SmartSuggestions(list, history, coins);
            && |s| <= Limit
            && (forall i, j :: 0 <= i < j < |s| && s[j].reason == History ==> s[i].reason == History)
            && (forall i :: 0 <= i < |s| && s[i].reason == History ==> s[i].item in history && FindByName(list, s[i].item).None?)
            && (forall i :: 0 <= i < |s| && s[i].reason == Seasonal ==>
                  !KeyOnList(list, s[i].item) && exists e :: e in Catalog.Entries && e.seasonal && e.name == s[i].item)
  {
    var p := Picked(list, history, coins, Catalog.Entries);
    PickedShape(list, history, coins, Catalog.Entries);
    var s := Cut(p);
    assert forall i :: 0 <= i < |s| ==> s[i] == p[i];
  }

  /**
   * The candidates are not de-duplicated: with an empty list, "apples" in the history
   * and the first two draws true, "apples" is suggested twice, once for each reason.
   */
  lemma SuggestedTwice()
    ensures SmartSuggestions([], ["apples"], [true, true]) == [Suggestion("apples", History), Suggestion("apples", Seasonal)]
  {
    var coins := [true, true];
    var h := HistoryCandidates([], ["apples"]);
    HistoryStep([], ["apples"], 0);
    assert ["apples"][..0] == [] && ["apples"][..1] == ["apples"];
    assert h == ["apples"];
    KeepStep([], "apples", coins, 0, History);
    var sc := SeasonalCandidates([], Catalog.Entries);
    SeasonalFirstIsApples();
    KeepNone(sc[1..], coins, 2, Seasonal);
    KeepPrefix(sc, coins, 1, 1, Seasonal);
    KeepStep([], sc[0], coins, 1, Seasonal);
    assert sc[..1] == [] + [sc[0]];
  }

  /** With an empty list the seasonal candidates start with "apples", the first seasonal entry. */
  lemma SeasonalFirstIsApples()
    ensures var sc := SeasonalCandidates([], Catalog.Entries); |sc| >= 1 && sc[0] == "apples"
  {
    var e := Catalog.Entries;
    assert forall i :: 0 <= i < 4 ==> !e[i].seasonal;
    assert e[4].seasonal && e[4].name == "apples";
    FirstSeasonal([], e, 4);
  }

  /** The first candidate is the first seasonal entry, when that one is not on the list. */
  lemma FirstSeasonal(list: seq<Item>, entries: seq<Catalog.Entry>, k: nat)
    requires k < |entries|
    requires forall i :: 0 <= i < k ==> !entries[i].seasonal
    requires entries[k].seasonal && !KeyOnList(list, entries[k].name)
    ensures var sc := SeasonalCandidates(list, entries); |sc| >= 1 && sc[0] == entries[k].name
  {
    NoSeasonalBefore(list, entries, k);
    SeasonalStep(list, entries, k);
    SeasonalCandidatesPrefix(list, entries, k + 1);
  }

  /** Without a seasonal entry among the first `k`, they give no candidate. */
  lemma {:induction false} NoSeasonalBefore(list: seq<Item>, entries: seq<Catalog.Entry>, k: nat)
    requires k <= |entries|
    requires forall i :: 0 <= i < k ==> !entries[i].seasonal
    ensures SeasonalCandidates(list, entries[..k]) == []
  {
    if k > 0 {
      NoSeasonalBefore(list, entries, k - 1);
      SeasonalStep(list, entries, k - 1);
    }
  }

  /** The candidates from a prefix of the entries are a prefix of the candidates. */
  lemma {:induction false} SeasonalCandidatesPrefix(list: seq<Item>, entries: seq<Catalog.Entry>, n: nat)
    requires n <= |entries|
    ensures var pre := SeasonalCandidates(list, entries[..n]);
            var full := SeasonalCandidates(list, entries);
            |pre| <= |full| && pre == full[..|pre|]
    decreases |entries|
  {
    if n < |entries| {
      var m := |entries| - 1;
      assert entries[..m][..n] == entries[..n];
      SeasonalCandidatesPrefix(list, entries[..m], n);
      SeasonalStep(list, entries, m);
      assert entries[..m + 1] == entries;
    } else {
      assert entries[..n] == entries;
    }
  }

  /** Keeping splits at any point of the candidates, the draws numbered on. */
  lemma {:induction false} KeepPrefix(candidates: seq<string>, coins: seq<bool>, first: nat, n: nat, reason: Reason)
    requires n <= |candidates|
    ensures Keep(candidates, coins, first, reason) == Keep(candidates[..n], coins, first, reason) + Keep(candidates[n..], coins, first + n, reason)
    decreases |candidates|
  {
    if n == |candidates| {
      assert candidates[..n] == candidates;
      assert candidates[n..] == [];
    } else {
      var m := |candidates| - 1;
      KeepPrefix(candidates[..m], coins, first, n, reason);
      assert candidates[..m][..n] == candidates[..n];
      var tail := candidates[n..];
      var last := if Coin(coins, first + m) then [Suggestion(candidates[m], reason)] else [];
      assert tail[..|tail| - 1] == candidates[..m][n..];
      assert tail[|tail| - 1] == candidates[m];
      assert Keep(tail, coins, first + n, reason) == Keep(candidates[..m][n..], coins, first + n, reason) + last;
      assert Keep(candidates, coins, first, reason) == Keep(candidates[..m], coins, first, reason) + last;
    }
  }
}
