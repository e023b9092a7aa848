# Voice shopping assistant, modelled in Dafny

This project models the logic of the voice shopping assistant in
`shopping-assistant.jsx`. The file is a single React component; its logic has five parts:

- **Product table.** `PRODUCT_DATABASE`, the fixed catalog of 21 entries, in declaration order. Module `Catalog`.
- **Utterance parser.** `processVoiceCommand`:
  - it lower-cases the utterance and reads a quantity from the first run of digits;
  - it tries the remove, search and add regular expressions in that order, and the first match decides the command.
  The regular expressions are written out by hand. A match tries start positions left to right. At each one the choices are tried in a fixed order: alternatives as listed, greedy repetitions longest first, lazy ones shortest first. Each fragment is modelled by the ordered list of the positions where it can end. Modules `Text`, `Parser` and `PatternFacts`.
- **List engine.** `addItem` (merge or append, with catalog enrichment), `removeItem` (the first item whose name contains the fragment), `groupedItems` and `totalPrice`. Module `ShoppingList`.
- **Search.** `performSearch`, a filter over the catalog in catalog order with an optional price ceiling. Module `CatalogSearch`.
- **Suggestions.** `generateSmartSuggestions`:
  - history entries not on the list come first, then seasonal catalog entries not on the list;
  - each candidate is kept by one random draw;
  - at most four are shown.
  Module `Suggestions`.

Module `Assistant` holds the component's state: list, history, id counter, feedback message, suggestions and search results. The state is the class `VoiceShoppingAssistant`, one method per handler. Each method's contract gives the new state as the functions above applied to the state before the call.

Module `Scenarios` works two utterances through the parser end to end, "find apples under $3" and "add 2 bottles of water".

Representation choices:

- **Prices** are integer cents, so totals and the ceiling test are exact. A spoken ceiling is whole dollars from `\d+`, so it is compared as `100 * maxPrice` cents.
- **Random draws.** `Math.random() > 0.5` and `> 0.6` become an injected sequence of booleans. The k-th draw, counted over the eligible candidates only, is `coins[k]`. A missing coin counts as false.
- **Ids.** `Date.now()` becomes the counter `nextId`. It grows by one on every add, like a clock, so ids are unique. That is what the filter by id in `removeItem` assumes.
- **Suggestion timing.** `addItem` and `removeItem` call `generateSmartSuggestions` in the same event as their state updates, so it still sees the old list and history. The model therefore computes the new suggestions from the state before the update.

Where the expected behaviour of the assistant and the code differ, the model follows the code:

- **Unit words.** In the first add pattern, the unit words and `of\s+` are alternatives of one optional group, and `bottle` is listed before `bottles`. "add 2 bottles of water" therefore captures `s of water` (quantity 2), not `water`. `Scenarios.AddTwoBottlesOfWater` states this end to end, by way of `PatternFacts.BottleBeforeBottles` and `PatternFacts.FirstStartWins` (the first capture start tried wins).
- **Search capture.** The lazy search capture is followed only by an optional group, so it is always one character (`Parser.SearchCaptureIsOneCharacter`). "find apples under $3" therefore searches for `a` with no price ceiling. `Scenarios.SearchApplesUnderThree` states this end to end.
- **Default category.** An item missing from the catalog gets category `Other` and price 0.
- **Zero quantity.** The quantity is not forced to be positive: "add 0 apples" adds quantity 0 (`PatternFacts.ZeroQuantity`).
- **Unrecognised commands** carry no text. They set the fixed message "I didn't understand that. Try 'add milk' or 'remove bread'".
- **History** is a list. A new name is appended unless an exact, case-sensitive `includes` finds it.
- **Price ceiling of 0.** A ceiling of 0 is falsy, so it is no ceiling at all.

## Model

| member | source | states |
|---|---|---|
| Catalog.Entries | shopping-assistant.jsx:5-27 | `PRODUCT_DATABASE`, its 21 entries in declaration order with prices in cents; given by its definition, and looked up by `Catalog.Lookup` |
| Catalog.Lookup | shopping-assistant.jsx:168 | `PRODUCT_DATABASE[key]` yields a catalog entry stored under exactly that key, and yields nothing only when no entry has that key |
| Catalog.LookupFrom | shopping-assistant.jsx:168 | the scan behind `PRODUCT_DATABASE[key]` from entry `i` on: an entry found is one of the remaining entries and has that key; none found means no remaining entry has it |
| Text.RunIsMaximal | shopping-assistant.jsx:113 | a run of `\s`, `\d` or `.` characters consists of that class only and ends at the end of the text or at a character outside the class |
| Text.IsSpace | shopping-assistant.jsx:113 | the character class `\s` (also in the patterns at :118-127, and the characters `trim` removes at :134, :144, :155, :157): space, tab, the line terminators, vertical tab, form feed, no-break space, the Unicode space separators and the byte-order mark; given by its definition |
| Text.IsLineTerminator | shopping-assistant.jsx:118 | the characters the pattern `.` does not match (also :119, :123, :127): line feed, carriage return, line and paragraph separator; given by its definition |
| Text.IsDigit | shopping-assistant.jsx:113 | the class `\d` (also :118, :127): the ASCII digits only; given by its definition |
| Text.DecimalValue | shopping-assistant.jsx:114 | `parseInt` on a digit string (and `parseFloat` of the digits of :145), most significant digit first; its readback property is `Text.DecimalRoundTrip` |
| Text.StartsAt | shopping-assistant.jsx:118 | a literal word of a pattern (also :119, :123, :127, :157) matches at a position, character by character; stated by `Text.StartsAtIff` |
| Text.Run | shopping-assistant.jsx:113 | the longest run of `\s`, `\d` or `.` characters at a position; its ensures keeps the run inside the text, and `Text.RunIsMaximal` states that it is maximal |
| Text.StartsAtIff | shopping-assistant.jsx:118-127 | a literal word of a pattern occurs at a position exactly when the slice of that length there equals it |
| Text.Lower | shopping-assistant.jsx:110 | `toLowerCase` (also :168, :172, :210, :224-225): same length, each character lower-cased; stated by its own ensures and `Text.LowerIdempotent` and `Text.LowerSlice` |
| Text.LowerIdempotent | shopping-assistant.jsx:110 | lower-casing text that is already lower-cased changes nothing |
| Text.LowerSlice | shopping-assistant.jsx:110 | any slice of a lower-cased text is already lower-cased |
| Text.Trim | shopping-assistant.jsx:134 | `trim` returns the slice of the text that starts where `TrimStart` leaves off: only white space is cut at either end, and the result neither begins nor ends with white space |
| Text.TrimStart | shopping-assistant.jsx:134 | the leading half of `trim`: the result is a suffix of the text, does not begin with white space, and only white space was cut |
| Text.TrimEnd | shopping-assistant.jsx:134 | the trailing half of `trim`: the result is a prefix of the text, does not end with white space, and only white space was cut |
| Text.TrimOfTrimmed | shopping-assistant.jsx:157 | a text with no white space at its ends is its own `trim` |
| Text.Includes | shopping-assistant.jsx:210 | `.includes` (also :192, :224-225), a left-to-right scan; stated by `Text.IncludesIff` and `Text.IncludesEmpty` |
| Text.IncludesIff | shopping-assistant.jsx:210 | `includes` holds exactly when the fragment occurs at some position |
| Text.IncludesEmpty | shopping-assistant.jsx:224 | every text includes the empty string |
| Text.NatToString | shopping-assistant.jsx:189 | the decimal rendering of a number is a non-empty string of digits with no leading zero: it begins with `0` exactly when the number is 0, and then it is `0` alone |
| Text.DecimalRoundTrip | shopping-assistant.jsx:180 | reading back the decimal rendering of a number gives the number |
| Parser.Greedy | shopping-assistant.jsx:118 | a greedy repetition over a run of n characters tries its n ends longest first |
| Parser.Plus | shopping-assistant.jsx:118 | `\s+` (also :119, :123, :127) or `\d+`: the greedy ends over the maximal run, longest first; stated by `Parser.Greedy` and `Text.RunIsMaximal` |
| Parser.Alternatives | shopping-assistant.jsx:118 | a group of literal words (the verbs of :118-127, the unit words) ends after each word that occurs there, in the order listed; given by its definition, used by `PatternFacts.NoVerbNoMatch` and `PatternFacts.BottleBeforeBottles` |
| Parser.SpacesAfterEach | shopping-assistant.jsx:118 | `\s+` after each end of the fragment before it, every choice after the first end before the second; given by its definition |
| Parser.OptionalNumber | shopping-assistant.jsx:118 | `(?:\d+\s+)?`: the ends after the digits and spaces first, then the empty choice; `Parser.StepKeeps` states that skipping is always among the choices |
| Parser.OptionalUnit | shopping-assistant.jsx:118 | the optional unit group: each unit word in the order listed, then `of\s+`, then the empty choice; stated by `Parser.StepKeeps` and `PatternFacts.BottleBeforeBottles` |
| Parser.Prefix | shopping-assistant.jsx:117-127 | the fragments of each pattern before capture group 1: verbs and `\s+`, plus the number and unit groups in the first add pattern; given by its definition |
| Parser.CaptureStarts | shopping-assistant.jsx:118 | the positions where capture group 1 may start, in the order the prefix tries them (also :119, :123, :127); stated by `Parser.AddStartsIncluded` and `Parser.CaptureAtIsFirst` |
| Parser.ListPhraseAt | shopping-assistant.jsx:118 | the list tails `\s+to\s+(?:my\s+)?list` and, at :123, `\s+from\s+(?:my\s+)?list` match at a position; stated by `PatternFacts.NoListOnlyEnd` |
| Parser.TailAt | shopping-assistant.jsx:117-127 | what must follow the lazy capture: a list tail or the end of the text for the add and remove patterns, anything for the search pattern, whose tail is optional; stated by `Parser.SearchCaptureIsOneCharacter` and `PatternFacts.NoListOnlyEnd` |
| Parser.CaptureEnd | shopping-assistant.jsx:118-119 | the end of capture group 1 from a start: an end strictly after the start and within the text; shortest for `(.+?)` by `Parser.CaptureEndIsShortest` and longest for `(.+)` by `Parser.CaptureEndIsLongest` |
| Parser.CaptureAt | shopping-assistant.jsx:118 | the match begun at a position: it begins there, and its capture is non-empty and inside the text; `Parser.CaptureAtIsFirst` states which capture start it uses |
| Parser.FirstWhere | shopping-assistant.jsx:132 | the position a left-to-right scan reports lies in the range and passes the test |
| Parser.FirstWhereIsFirst | shopping-assistant.jsx:132 | no position before the reported one passes the test, and none passes at all when none is reported |
| Parser.CaptureEndIsShortest | shopping-assistant.jsx:123 | a lazy capture ends at the first position after its start where the pattern's tail matches, within the run of non-terminators; with no such position it ends nowhere |
| Parser.CaptureEndIsLongest | shopping-assistant.jsx:119 | the greedy `(.+)` exists exactly when a non-terminator follows, and then takes everything up to the first line terminator or the end |
| Parser.CaptureAtIsFirst | shopping-assistant.jsx:118 | a match at a given start uses the first capture start, in the order the prefix's choices are tried, from which the rest of the pattern matches |
| Parser.Match | shopping-assistant.jsx:132 | `lowerText.match(pattern)` (also :142, :153): capture group 1 of the leftmost match; stated by `Parser.MatchIsLeftmost` and `Parser.CaptureAtIsFirst` |
| Parser.MatchIsLeftmost | shopping-assistant.jsx:132 | `match` reports the leftmost position where the pattern matches; no match means no position matches |
| Parser.RemovePatterns | shopping-assistant.jsx:122-124 | the remove table, one pattern; given by its definition |
| Parser.SearchPatterns | shopping-assistant.jsx:126-128 | the search table, one pattern; given by its definition |
| Parser.AddPatterns | shopping-assistant.jsx:117-120 | the add table, the unit pattern before the catch-all one; given by its definition |
| Parser.FirstMatch | shopping-assistant.jsx:131-161 | the `for` loops over a pattern table with early return: a capture it reports is non-empty and inside the text; stated by `Parser.FirstMatchSingle`, `FirstMatchPair`, `FirstMatchIsFirst` and `FirstMatchNone` |
| Parser.FirstMatchSingle | shopping-assistant.jsx:131-137 | a table of one pattern reports that pattern's match |
| Parser.FirstMatchPair | shopping-assistant.jsx:152-161 | a table of two patterns reports the first one's match if it has one, else the second one's |
| Parser.FirstMatchIsFirst | shopping-assistant.jsx:152-160 | the first pattern of a table that matches decides the capture |
| Parser.FirstMatchNone | shopping-assistant.jsx:152-163 | a table none of whose patterns matches falls through |
| Parser.FirstDigit | shopping-assistant.jsx:113 | the reported position holds the first digit at or after the start; with none reported, no digit follows |
| Parser.NumberAt | shopping-assistant.jsx:114 | `parseInt` of the maximal digit run at a position; stated by `Parser.Quantity` and `Text.DecimalRoundTrip` |
| Parser.Quantity | shopping-assistant.jsx:113-114 | the quantity is 1 when the text has no digit, and otherwise the value of the maximal digit run at the first digit; nothing makes it positive |
| Parser.FirstListSuffix | shopping-assistant.jsx:157 | the reported position is the leftmost where `\s+(to\|from\|my\|the\|a\|an)\s+list` runs to the end of the text |
| Parser.ListSuffixAt | shopping-assistant.jsx:157 | the clean-up pattern `\s+(to\|from\|my\|the\|a\|an)\s+list$` matches at a position; stated by `Parser.FirstListSuffix` and `Parser.StripListSuffix` |
| Parser.StripListSuffix | shopping-assistant.jsx:157 | a text with no such suffix is kept; when a suffix is present the text is cut, strictly shorter, to the prefix before the leftmost position where a suffix starts |
| Parser.ItemName | shopping-assistant.jsx:155-157 | the item name of an add capture (`trim`, the clean-up, `trim` again) neither begins nor ends with white space |
| Parser.ItemNameWithoutSuffix | shopping-assistant.jsx:155-157 | without a list suffix the item name is the trimmed capture: the clean-up and the second `trim` change nothing |
| Parser.TrimKeepsLower | shopping-assistant.jsx:134 | `trim` of a lower-cased text is lower-cased |
| Parser.StripKeepsLower | shopping-assistant.jsx:157 | the clean-up of a lower-cased text is lower-cased |
| Parser.IntentIsLowerCase | shopping-assistant.jsx:110-157 | every name, fragment and query the parser hands on is already lower-cased, so the handlers' own `toLowerCase` (:168, :210, :224) changes nothing |
| Parser.Classify | shopping-assistant.jsx:130-163 | the classification of the lower-cased text; its contract is that of `Parser.CommandPriority` and the capture lemmas |
| Parser.Parse | shopping-assistant.jsx:109-110 | lowers the utterance once and classifies it; `Parser.Interpret` is proved equal to it |
| Parser.PriceAt | shopping-assistant.jsx:127 | capture group 2 and `parseFloat` of it (:145); given by its definition only, see "## Left out" |
| Parser.Interpret | shopping-assistant.jsx:109-163 | the loops over the pattern tables with early return compute exactly the intent of the lower-cased text |
| Parser.LazyCaptureIsShortest | shopping-assistant.jsx:117-128 | the capture of the three lazy patterns starts where the prefix allows, has no line terminator, is followed by the tail, and no shorter capture from that start is |
| Parser.SearchCaptureIsOneCharacter | shopping-assistant.jsx:127 | the search capture is always exactly one character |
| Parser.SearchQueryAtMostOneCharacter | shopping-assistant.jsx:143-146 | hence a search query is at most one character long after `trim` |
| Parser.StepKeeps | shopping-assistant.jsx:118 | skipping the optional number or unit group is always among its choices |
| Parser.AddStartsIncluded | shopping-assistant.jsx:117-120 | every capture start of the second add pattern is also tried by the first |
| Parser.AddAnythingNeedsLineTerminator | shopping-assistant.jsx:117-120 | in text without a line terminator, the second add pattern matches only when the first one does, so it never decides |
| Parser.CommandPriority | shopping-assistant.jsx:130-161 | remove intent iff the remove pattern matches; search iff remove fails and search matches; add iff both fail and an add pattern matches; the remove fragment and search query are the trimmed captures, the ceiling is read after the search capture, the add name is the cleaned-up capture of the first add pattern that matches, and the add quantity is the utterance's quantity |
| PatternFacts.NoVerbNoMatch | shopping-assistant.jsx:118-127 | a pattern none of whose verbs occurs in the text does not match it |
| PatternFacts.NoListOnlyEnd | shopping-assistant.jsx:118-123 | without the word "list" in the text, the add and remove tails match only at the end of the text |
| PatternFacts.CaptureToEnd | shopping-assistant.jsx:118-123 | without "list", a lazy add or remove capture with no line terminator after it runs to the end of the text |
| PatternFacts.BottleBeforeBottles | shopping-assistant.jsx:118 | before "bottles", the unit group first tries the end after "bottle", then the one after "bottles" |
| Parser.LazyCaptureAlwaysEnds | shopping-assistant.jsx:118-123 | in text without line terminators, a lazy add or remove capture can start at any position before the end |
| PatternFacts.FirstStartWins | shopping-assistant.jsx:118-123 | hence the match uses the first capture start tried, even when it cuts a word |
| PatternFacts.ZeroQuantity | shopping-assistant.jsx:113-114 | "add 0 apples" asks for quantity 0 |
| Scenarios.NoPairNoStart | shopping-assistant.jsx:118-127 | a word one of whose adjacent letter pairs never occurs in the text occurs nowhere in it |
| Scenarios.DotRunToEnd | shopping-assistant.jsx:118 | in text without line terminators, the run of `.` characters from a position reaches the end |
| Scenarios.NoListNoSuffix | shopping-assistant.jsx:157 | text without the word "list" has no clean-up suffix anywhere |
| Scenarios.EndsOfFour | shopping-assistant.jsx:118 | four fragments one after another give their four steps in order |
| Scenarios.StepFirst | shopping-assistant.jsx:118 | the choices from the first position are tried before those from the rest |
| Scenarios.FindApplesSearchMatch | shopping-assistant.jsx:127 | the search pattern matches "find apples under $3" at 0, capturing the one character `a` at 5 |
| Scenarios.SearchApplesUnderThree | shopping-assistant.jsx:109-147 | "find apples under $3" neither removes nor adds: it searches for `a` with no price ceiling |
| Scenarios.TwoBottlesFirstStart | shopping-assistant.jsx:118 | in "add 2 bottles of water", the first capture start the first add pattern tries is 12, after "bottle" and inside "bottles" |
| Scenarios.TwoBottlesMatch | shopping-assistant.jsx:118 | so the first add pattern matches at 0 with capture `s of water`, from 12 to the end |
| Scenarios.TwoBottlesQuantity | shopping-assistant.jsx:113-114 | the quantity of "add 2 bottles of water" is 2 |
| Scenarios.SOfWaterName | shopping-assistant.jsx:155-157 | the clean-up leaves `s of water` as it is |
| Scenarios.AddTwoBottlesOfWater | shopping-assistant.jsx:109-158 | "add 2 bottles of water" neither removes nor searches: it adds 2 of an item named `s of water` |
| ShoppingList.Total | shopping-assistant.jsx:261 | the `reduce` of price times quantity; its properties are `ShoppingList.TotalAppend`, `TotalRemoveAt` and `TotalUpdate` |
| ShoppingList.LineTotal | shopping-assistant.jsx:261 | one item's price times quantity; stated by `ShoppingList.TotalRemoveAt` and `ShoppingList.MergeRaisesTotal` |
| ShoppingList.TotalAppend | shopping-assistant.jsx:261 | the total of two lists joined is the sum of their totals |
| ShoppingList.TotalRemoveAt | shopping-assistant.jsx:261 | taking one item out lowers the total by exactly its price times quantity |
| ShoppingList.TotalUpdate | shopping-assistant.jsx:261 | replacing one item changes the total by the difference of the two line totals |
| ShoppingList.SameName | shopping-assistant.jsx:172 | the `find` test of `addItem` (also the merge test at :176): the names are equal once both are lower-cased; stated by `ShoppingList.FindByName` and `ShoppingList.SameNameSamePrice` |
| ShoppingList.FindByName | shopping-assistant.jsx:172 | the position found holds the first item with the same name, case-insensitively; none found means no item has it |
| ShoppingList.NameContains | shopping-assistant.jsx:210 | the `find` test of `removeItem`: the lower-cased item name includes the lower-cased fragment; stated by `ShoppingList.FindContaining` |
| ShoppingList.FindContaining | shopping-assistant.jsx:210 | the position found holds the first item whose lower-cased name contains the lower-cased fragment; none found means no item does |
| ShoppingList.CategoryOf | shopping-assistant.jsx:169 | the catalog's category, or `Other`; stated by `ShoppingList.AddNew` |
| ShoppingList.PriceOf | shopping-assistant.jsx:170 | the catalog's price, or 0; stated by `ShoppingList.AddNew` |
| ShoppingList.Bump | shopping-assistant.jsx:175-179 | the merge `map`: the matching item gains the quantity; stated by `ShoppingList.AddToExisting` |
| ShoppingList.ListAfterAdd | shopping-assistant.jsx:172-188 | the list after `addItem`: merge into the first case-insensitive name match, or append; stated by `ShoppingList.AddToExisting` and `ShoppingList.AddNew` |
| ShoppingList.HistoryAfterAdd | shopping-assistant.jsx:191-194 | the history after `addItem`; stated by `ShoppingList.AddNew` and `ShoppingList.HistoryGrows` |
| ShoppingList.AddFeedback | shopping-assistant.jsx:180-189 | the "Updated …" or "Added …" message, with quantities rendered by `Text.NatToString` |
| ShoppingList.Advisory | shopping-assistant.jsx:197-203 | the "You might also like" message naming the catalog's first alternative, when there is one |
| ShoppingList.AddToExisting | shopping-assistant.jsx:172-180 | adding a name already on the list raises that item's quantity by exactly the amount; the length, every other item and the history stay the same |
| ShoppingList.AddNew | shopping-assistant.jsx:168-194 | adding a new name appends exactly one item at the end, with the catalog's category and price, or `Other` and 0 when the catalog lacks it; the history gains the name unless it holds it exactly |
| ShoppingList.HistoryGrows | shopping-assistant.jsx:191-194 | the history never shrinks: it stays or gains the name once, at its end |
| ShoppingList.AddedNameIsOnList | shopping-assistant.jsx:172-188 | after any add, an item with that name is on the list |
| ShoppingList.AddKeepsInvariant | shopping-assistant.jsx:172-188 | adding keeps names unique case-insensitively, ids unique, and ids below the next one |
| ShoppingList.AddKeepsPriced | shopping-assistant.jsx:168-188 | adding keeps every item carrying its catalog category and price |
| ShoppingList.SameNameSamePrice | shopping-assistant.jsx:168-170 | names equal case-insensitively get the same catalog price |
| ShoppingList.MergeRaisesTotal | shopping-assistant.jsx:175-179 | merging a quantity into an item raises the total by its price times that quantity |
| ShoppingList.AddRaisesTotal | shopping-assistant.jsx:167-195 | on a list with unique names priced from the catalog, any add raises the total by exactly the catalog price times the quantity, on both paths |
| ShoppingList.AddKeepsWellFormed | shopping-assistant.jsx:167-195 | adding keeps the list well formed, with the next id one higher |
| ShoppingList.WithoutId | shopping-assistant.jsx:212 | the filter by id keeps only items of the list with a different id |
| ShoppingList.WithoutAbsentId | shopping-assistant.jsx:212 | filtering out an id no item has changes nothing |
| ShoppingList.WithoutIdRemovesOne | shopping-assistant.jsx:212 | with unique ids, filtering out the id of one item removes exactly that item and keeps the rest in order |
| ShoppingList.ListAfterRemove | shopping-assistant.jsx:210-212 | the list after `removeItem`; stated by `ShoppingList.RemoveFound` and `ShoppingList.RemoveNotFound` |
| ShoppingList.RemoveFeedback | shopping-assistant.jsx:213-215 | the "Removed …" or "… not found" message; stated by the same two lemmas |
| ShoppingList.RemoveFound | shopping-assistant.jsx:209-214 | removing takes out exactly the first item whose name contains the fragment, keeps the others in order, lowers the total by its line total and reports its full name |
| ShoppingList.RemoveNotFound | shopping-assistant.jsx:215-217 | when no name contains the fragment, the list stays and the message is "`<fragment>` not found in your list" |
| ShoppingList.RemoveKeepsPriced | shopping-assistant.jsx:212 | removing keeps every item priced from the catalog |
| ShoppingList.RemoveKeepsInvariant | shopping-assistant.jsx:212 | removing keeps names and ids unique and ids below the next one |
| ShoppingList.RemoveKeepsWellFormed | shopping-assistant.jsx:209-218 | removing keeps the list well formed |
| ShoppingList.Categories | shopping-assistant.jsx:254-256 | the categories listed are exactly those of some item |
| ShoppingList.GroupIndex | shopping-assistant.jsx:254 | a group found has the category looked for; none found means no group has it |
| ShoppingList.CategoriesDistinct | shopping-assistant.jsx:254-256 | each category gets one group only |
| ShoppingList.GroupingStep | shopping-assistant.jsx:253-258 | one step of the `reduce` on the grouping of a list gives the grouping of the list with the item appended |
| ShoppingList.GroupingKeepsEveryItem | shopping-assistant.jsx:253-259 | the grouping holds every item exactly as often as the list does |
| ShoppingList.InCategoryOnly | shopping-assistant.jsx:257 | a group holds only items of its own category |
| ShoppingList.Grouping | shopping-assistant.jsx:253-259 | the reference grouping: one group per category, in order of first appearance, holding its items in list order; membership by `ShoppingList.Categories`, one group per category by `CategoriesDistinct`, category order by `CategoriesPrefix` and `CategoriesInFirstAppearanceOrder`, item order by `InCategoryIsSubsequence`, purity by `InCategoryOnly` and completeness by `GroupingKeepsEveryItem` |
| ShoppingList.CategoriesPrefix | shopping-assistant.jsx:254-256 | the categories of the first `q` items are the first categories listed: a group is created when its category first appears |
| ShoppingList.CategoriesInFirstAppearanceOrder | shopping-assistant.jsx:254-256 | every item of a later-listed category has an item of each earlier-listed category before it in the list |
| ShoppingList.InCategoryIsSubsequence | shopping-assistant.jsx:257 | a group holds its items in list order, as the `push` in list order leaves them |
| ShoppingList.InCategory | shopping-assistant.jsx:257 | the items the `push` files under one category; stated by `ShoppingList.InCategoryOnly` and `InCategoryIsSubsequence` |
| ShoppingList.Place | shopping-assistant.jsx:254-257 | one step of the `reduce`; stated by `ShoppingList.GroupingStep` |
| ShoppingList.GroupItems | shopping-assistant.jsx:253-259 | the `reduce` builds the reference grouping: groups in order of first appearance, each holding its category's items in list order, every item exactly once under its own category |
| CatalogSearch.Filter | shopping-assistant.jsx:222-229 | the filter over catalog entries; stated by the four lemmas below |
| CatalogSearch.MatchesQuery | shopping-assistant.jsx:224-225 | the key or the lower-cased category includes the lower-cased query; stated by `CatalogSearch.FilterMembership` |
| CatalogSearch.WithinCeiling | shopping-assistant.jsx:226 | no ceiling, a ceiling of 0, or a price within the ceiling; stated by `CatalogSearch.FilterMembership`, `ZeroCeilingIsNone` and `CeilingNarrows` |
| CatalogSearch.Selected | shopping-assistant.jsx:223-228 | the body of the `filter`: the query test and the price test both hold; stated by `CatalogSearch.FilterMembership` |
| CatalogSearch.SearchCatalog | shopping-assistant.jsx:222-230 | the filter over the whole catalog, in declaration order |
| CatalogSearch.SearchFeedback | shopping-assistant.jsx:232-236 | the "Found …" or "No items found …" message; given by its definition only, see "## Left out" |
| CatalogSearch.FilterMembership | shopping-assistant.jsx:222-229 | an entry is a result exactly when it is in the catalog, its key or lower-cased category contains the lower-cased query, and it passes the ceiling |
| CatalogSearch.FilterIsSubsequence | shopping-assistant.jsx:222-229 | the results keep catalog order |
| CatalogSearch.EmptyQueryFindsAll | shopping-assistant.jsx:224 | an empty query with no ceiling returns the whole catalog |
| CatalogSearch.ZeroCeilingIsNone | shopping-assistant.jsx:226 | a ceiling of 0 gives the same results as no ceiling |
| CatalogSearch.CeilingNarrows | shopping-assistant.jsx:226 | a ceiling only removes results, keeping the order of the others |
| Suggestions.HistoryCandidates | shopping-assistant.jsx:79-81 | the history entries no item of whose name is on the list; stated by `Suggestions.HistoryStep` and `HistoryCandidatesSound` |
| Suggestions.SeasonalCandidates | shopping-assistant.jsx:93-94 | the keys of seasonal entries not on the list, in catalog order; stated by `Suggestions.SeasonalStep`, `SeasonalCandidatesSound` and `SeasonalCandidatesPrefix` |
| Suggestions.KeyOnList | shopping-assistant.jsx:94 | the seasonal `find`: some item's lower-cased name equals the catalog key as it is; stated by `Suggestions.SeasonalStep` and `Suggestions.SeasonalCandidatesSound` |
| Suggestions.Coin | shopping-assistant.jsx:82 | the draw `Math.random() > 0.5` (and `> 0.6` at :95) as the k-th injected boolean, false when missing; given by its definition |
| Suggestions.Limit | shopping-assistant.jsx:105 | the 4 of `slice(0, 4)`; stated by `Suggestions.SuggestionsShape` |
| Suggestions.Keep | shopping-assistant.jsx:82-101 | the candidates whose draws are true; stated by `Suggestions.KeepStep`, `KeepSound`, `KeepNone`, `KeepAll` and `KeepPrefix` |
| Suggestions.Picked | shopping-assistant.jsx:76-103 | the kept history candidates, then the kept seasonal ones; stated by `Suggestions.PickedShape` |
| Suggestions.Cut | shopping-assistant.jsx:105 | `slice(0, 4)`; stated by `Suggestions.SuggestionsShape` |
| Suggestions.SmartSuggestions | shopping-assistant.jsx:75-106 | the suggestions shown; `Suggestions.GenerateSmartSuggestions` is proved equal to it and `Suggestions.SuggestionsShape` is proved about it |
| Suggestions.GenerateSmartSuggestions | shopping-assistant.jsx:75-106 | the two loops and the cut compute the kept history candidates, then the kept seasonal candidates, with draws numbered across both loops, and return at most four |
| Suggestions.PushHistory | shopping-assistant.jsx:79-90 | the first loop pushes exactly the history candidates whose draws are true, in history order, using one draw per candidate |
| Suggestions.PushSeasonal | shopping-assistant.jsx:93-103 | the second loop appends exactly the seasonal candidates whose draws, numbered on after the history's, are true, in catalog order, using one draw per candidate |
| Suggestions.HistoryStep | shopping-assistant.jsx:79-90 | one more history entry adds itself to the candidates exactly when no item of its name is on the list |
| Suggestions.SeasonalStep | shopping-assistant.jsx:93-103 | one more catalog entry adds its key exactly when it is seasonal and not on the list |
| Suggestions.KeepStep | shopping-assistant.jsx:82-88 | one more candidate is kept exactly when the next draw is true |
| Suggestions.HistoryCandidatesSound | shopping-assistant.jsx:79-81 | a history candidate is in the history and no item of its name, case-insensitively, is on the list |
| Suggestions.SeasonalCandidatesSound | shopping-assistant.jsx:93-94 | a seasonal candidate is the key of a seasonal entry that is not on the list |
| Suggestions.KeepSound | shopping-assistant.jsx:82-101 | what is kept is one of the candidates, with the given reason |
| Suggestions.KeepNone | shopping-assistant.jsx:82 | with every draw false, nothing is kept |
| Suggestions.KeepAll | shopping-assistant.jsx:95 | with every draw true, every candidate is kept, in order |
| Suggestions.KeepPrefix | shopping-assistant.jsx:82-95 | keeping splits at any point of the candidates, the draws numbered on |
| Suggestions.PickedShape | shopping-assistant.jsx:76-103 | before the cut, history suggestions precede seasonal ones, each sound as above |
| Suggestions.SuggestionsShape | shopping-assistant.jsx:76-105 | at most four suggestions; history ones before seasonal ones; none is on the list; seasonal ones come from seasonal catalog entries |
| Suggestions.SuggestedTwice | shopping-assistant.jsx:79-103 | there is no de-duplication: with an empty list, "apples" in the history and two true draws, "apples" is suggested under both reasons |
| Suggestions.SeasonalFirstIsApples | shopping-assistant.jsx:10 | with an empty list the first seasonal candidate is "apples", the first seasonal entry |
| Suggestions.FirstSeasonal | shopping-assistant.jsx:93-94 | the first seasonal entry, when not on the list, is the first seasonal candidate |
| Suggestions.NoSeasonalBefore | shopping-assistant.jsx:93-94 | entries that are not seasonal give no candidate |
| Suggestions.SeasonalCandidatesPrefix | shopping-assistant.jsx:93 | the candidates of a prefix of the catalog are a prefix of the candidates |
| Assistant.InitialHistory | shopping-assistant.jsx:35 | the initial history; given by its definition |
| Assistant.NotUnderstood | shopping-assistant.jsx:163 | the fixed message for an unrecognised utterance; given by its definition |
| Assistant.VoiceShoppingAssistant.constructor | shopping-assistant.jsx:30-37 | the first render: an empty list, the initial history, the id counter at 0, no message, no results, and the suggestions for that state |
| Assistant.VoiceShoppingAssistant.RefreshSuggestions | shopping-assistant.jsx:75-106 | the suggestions become those of the current list, history and draws; nothing else changes |
| Assistant.VoiceShoppingAssistant.AddItem | shopping-assistant.jsx:167-206 | list, history and message become those of the add; the id counter grows by one; the advisory names the catalog's first alternative; the suggestions come from the state before the add; the invariant is kept |
| Assistant.VoiceShoppingAssistant.RemoveItem | shopping-assistant.jsx:209-218 | list and message become those of the remove; the suggestions are regenerated, from the list before, only when an item went; history, counter and results are unchanged |
| Assistant.VoiceShoppingAssistant.PerformSearch | shopping-assistant.jsx:221-237 | the results and message become those of the search; the list, history and suggestions are untouched |
| Assistant.VoiceShoppingAssistant.ProcessVoiceCommand | shopping-assistant.jsx:109-164 | the parsed intent decides the one handler that runs, with its whole effect; an unrecognised utterance sets the fixed message and changes nothing else |

## Left out

- Speech recognition (shopping-assistant.jsx:40-68) and `toggleListening` (:240-250) are browser I/O, outside the model.
- Rendering, the styles and the `toFixed` price formatting (:263-683) are presentation.
- Assistant.VoiceShoppingAssistant.AddItem: the 2000 ms `setTimeout` (:198-203) is not modelled. The advisory message is returned as a value. The model does not capture that the message replaces the feedback later, whatever happened in between.
- Assistant.VoiceShoppingAssistant.ProcessVoiceCommand: applies the command to the current state. In the source, the speech handler is registered once at the first render (:41-72) and calls that render's closure, which still sees the initial list and history. React's state mechanics and stale closures are not modelled.
- Suggestions.GenerateSmartSuggestions: `Math.random()` is replaced by injected draws. The probabilities 0.5 and 0.4 are not modelled, only which draw keeps which candidate.
- Assistant.VoiceShoppingAssistant.AddItem: ids come from a counter, not `Date.now()`. Two adds within one millisecond could repeat a clock id in the source; the model assumes ids are unique.
- Floating-point prices are integer cents, so float rounding in the total is not modelled. `parseInt` and `parseFloat` are modelled as exact on digit strings of any length; the loss of precision above 2^53 is not modelled. The same goes for rendering numbers of 10^21 and above in exponent form.
- Text.Lower: `toLowerCase` is modelled on the ASCII letters only. Unicode case mapping is not modelled.
- Strings are sequences of Unicode scalar values, while JavaScript strings are sequences of UTF-16 code units. For characters outside the Basic Multilingual Plane, `.`, the lengths and the positions differ: the one-character search capture (:127) is a whole character here, while JavaScript would capture a lone surrogate. This difference is not modelled.
- Looking up an inherited property name such as `constructor` in `PRODUCT_DATABASE` gives an object with no category, price or alternatives in the source. The model's "not in the catalog" gives the same outcome, so the difference is not modelled.
- Object keys in `groupedItems` enumerate integer-like keys first. Categories here are catalog categories or `Other`, never integer-like, so insertion order is modelled.
- CatalogSearch.SearchFeedback has no lemma of its own. The message is given only by its definition.
- Assistant.VoiceShoppingAssistant.AddItem: the contract does not restate the total or that the name is on the list. Those are `ShoppingList.AddRaisesTotal` and `ShoppingList.AddedNameIsOnList`, about the same list function.
- Parser.PriceAt: the ceiling after a one-character search query is given by definition only. For a search utterance, the lemmas above fix the capture but not the ceiling.
