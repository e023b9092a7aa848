/**
 * `performSearch`: the catalog entries whose key or lower-cased category contains
 * the lower-cased query, kept in catalog order, optionally under a price ceiling
 * given in whole dollars.
 */
module CatalogSearch {
  import opened Options
  import opened Text
  import opened Catalog
  import opened Sequences

  /** `name.includes(q) || data.category.toLowerCase().includes(q)` with `q` the lower-cased query. */
  predicate MatchesQuery(e: Entry, query: string) {
    Includes(e.name, Lower(query)) || Includes(Lower(e.category), Lower(query))
  }

  /** `maxPrice ? data.price <= maxPrice : true`, in cents: a missing ceiling and a ceiling of 0 both let everything through. */
  predicate WithinCeiling(e: Entry, maxPrice: Option<nat>) {
    maxPrice.None? || maxPrice.value == 0 || e.price <= 100 * maxPrice.value
  }

  predicate Selected(e: Entry, query: string, maxPrice: Option<nat>) {
    MatchesQuery(e, query) && WithinCeiling(e, maxPrice)
  }

  /** The `filter` over `entries`, in their order. */
  function Filter(entries: seq<Entry>, query: string, maxPrice: Option<nat>): seq<Entry> {
    if entries == [] then []
    else (if Selected(entries[0], query, maxPrice) then [entries[0]] else []) + Filter(entries[1..], query, maxPrice)
  }

  /** The results of `performSearch(query, maxPrice)`. */
  function SearchCatalog(query: string, maxPrice: Option<nat>): seq<Entry> {
    Filter(Entries, query, maxPrice)
  }

  /** The message `performSearch` shows for its results. */
  function SearchFeedback(results: seq<Entry>, query: string): string {
    if |results| > 0 then
      "Found " + NatToString(|results|) + " item" + (if |results| > 1 then "s" else "") + " matching \"" + query + "\""
    else "No items found for \"" + query + "\""
  }

  /** An entry is a result exactly when it is in the catalog part searched and passes both tests. */
  lemma {:induction false} FilterMembership(entries: seq<Entry>, query: string, maxPrice: Option<nat>, e: Entry)
    ensures e in Filter(entries, query, maxPrice) <==> e in entries && Selected(e, query, maxPrice)
  {
    if entries != [] {
      FilterMembership(entries[1..], query, maxPrice, e);
      assert entries == [entries[0]] + entries[1..];
    }
  }

  /** The results keep the catalog order. */
  lemma {:induction false} FilterIsSubsequence(entries: seq<Entry>, query: string, maxPrice: Option<nat>)
    ensures IsSubsequence(Filter(entries, query, maxPrice), entries)
  {
    if entries != [] {
      FilterIsSubsequence(entries[1..], query, maxPrice);
      var rest := Filter(entries[1..], query, maxPrice);
      if Selected(entries[0], query, maxPrice) {
        assert ([entries[0]] + rest)[1..] == rest;
      } else {
        assert Filter(entries, query, maxPrice) == rest;
      }
    }
  }

  /** An empty query with no ceiling returns every entry. */
  lemma {:induction false} EmptyQueryFindsAll(entries: seq<Entry>)
    ensures Filter(entries, "", None) == entries
  {
    if entries != [] {
      IncludesEmpty(entries[0].name);
      EmptyQueryFindsAll(entries[1..]);
    }
  }

  /** A ceiling of 0 dollars is falsy, so it is no ceiling at all. */
  lemma {:induction false} ZeroCeilingIsNone(entries: seq<Entry>, query: string)
    ensures Filter(entries, query, Some(0)) == Filter(entries, query, None)
  {
    if entries != [] {
      ZeroCeilingIsNone(entries[1..], query);
    }
  }

  /** A ceiling only ever removes results. */
  lemma {:induction false} CeilingNarrows(entries: seq<Entry>, query: string, maxPrice: Option<nat>)
    ensures IsSubsequence(Filter(entries, query, maxPrice), Filter(entries, query, None))
  {
    if entries != [] {
      CeilingNarrows(entries[1..], query, maxPrice);
      var rest := Filter(entries[1..], query, maxPrice);
      var all := Filter(entries[1..], query, None);
      if Selected(entries[0], query, maxPrice) {
        assert ([entries[0]] + rest)[1..] == rest && ([entries[0]] + all)[1..] == all;
      } else if Selected(entries[0], query, None) {
        assert Filter(entries, query, maxPrice) == rest;
        assert Filter(entries, query, None) == [entries[0]] + all;
        assert ([entries[0]] + all)[1..] == all;
      } else {
        assert Filter(entries, query, maxPrice) == rest;
        assert Filter(entries, query, None) == all;
      }
    }
  }
}
