/**
 * The shopping list: its items, the total price, the grouping by category, and
 * what `addItem` and `removeItem` make of a list, as functions of the list before
 * the call. The state that holds the list is in module Assistant.
 */
module ShoppingList {
  import opened Options
  import opened Text
  import Catalog
  import opened Sequences

  /** An entry of the list; `price` is in cents. */
  datatype Item = Item(name: string, quantity: nat, category: string, price: nat, id: nat)

  // ---------------------------------------------------------------------------
  // Total price
  // ---------------------------------------------------------------------------

  function LineTotal(item: Item): nat {
    item.price * item.quantity
  }

  /** `totalPrice`: the sum of price times quantity, accumulated from the first item on. */
  function Total(list: seq<Item>): nat {
    if list == [] then 0 else Total(list[..|list| - 1]) + LineTotal(list[|list| - 1])
  }

  lemma {:induction false} TotalAppend(a: seq<Item>, b: seq<Item>)
    ensures Total(a + b) == Total(a) + Total(b)
    decreases |b|
  {
    if b != [] {
      var ab := a + b;
      assert ab[..|ab| - 1] == a + b[..|b| - 1];
      assert ab[|ab| - 1] == b[|b| - 1];
      TotalAppend(a, b[..|b| - 1]);
    } else {
      assert a + b == a;
    }
  }

  /** Taking one item out of the list lowers the total by that item's line total. */
  lemma TotalRemoveAt(list: seq<Item>, k: nat)
    requires k < |list|
    ensures Total(list) == Total(list[..k] + list[k + 1..]) + LineTotal(list[k])
  {
    var before, x, after := list[..k], list[k], list[k + 1..];
    assert list == before + [x] + after;
    TotalAppend(before + [x], after);
    TotalAppend(before, [x]);
    TotalAppend(before, after);
    assert Total([x]) == LineTotal(x) by {
      assert [x][..0] == [];
    }
  }

  // ---------------------------------------------------------------------------
  // Finding items
  // ---------------------------------------------------------------------------

  /** Names compare case-insensitively. */
  predicate SameName(a: string, b: string) {
    Lower(a) == Lower(b)
  }

  /** `shoppingList.find(i => i.name.toLowerCase() === name.toLowerCase())`, as an index. */
  function FindByName(list: seq<Item>, name: string): (r: Option<nat>)
    ensures r.Some? ==> r.value < |list| && SameName(list[r.value].name, name)
                        && forall j :: 0 <= j < r.value ==> !SameName(list[j].name, name)
    ensures r.None? ==> forall j :: 0 <= j < |list| ==> !SameName(list[j].name, name)
  {
    if list == [] then None
    else if SameName(list[0].name, name) then Some(0)
    else match FindByName(list[1..], name)
      case Some(k) => Some(k + 1)
      case None => None
  }

  /** The name of `item` contains `fragment`, both lower-cased. */
  predicate NameContains(item: Item, fragment: string) {
    Includes(Lower(item.name), Lower(fragment))
  }

  /** `shoppingList.find(i => i.name.toLowerCase().includes(name.toLowerCase()))`, as an index. */
  function FindContaining(list: seq<Item>, fragment: string): (r: Option<nat>)
    ensures r.Some? ==> r.value < |list| && NameContains(list[r.value], fragment)
                        && forall j :: 0 <= j < r.value ==> !NameContains(list[j], fragment)
    ensures r.None? ==> forall j :: 0 <= j < |list| ==> !NameContains(list[j], fragment)
  {
    if list == [] then None
    else if NameContains(list[0], fragment) then Some(0)
    else match FindContaining(list[1..], fragment)
      case Some(k) => Some(k + 1)
      case None => None
  }

  // ---------------------------------------------------------------------------
  // The well-formed list
  // ---------------------------------------------------------------------------

  /** No two items share an id. */
  predicate UniqueIds(list: seq<Item>) {
    forall i, j :: 0 <= i < j < |list| ==> list[i].id != list[j].id
  }

  /** No two items share a name, case-insensitively: `addItem` merges instead of appending. */
  predicate UniqueNames(list: seq<Item>) {
    forall i, j :: 0 <= i < j < |list| ==> !SameName(list[i].name, list[j].name)
  }

  /** Every id is below the next one to hand out. */
  predicate IdsBelow(list: seq<Item>, nextId: nat) {
    forall i :: 0 <= i < |list| ==> list[i].id < nextId
  }

  // ---------------------------------------------------------------------------
  // addItem
  // ---------------------------------------------------------------------------

  /** The entry `PRODUCT_DATABASE[name.toLowerCase()]`. */
  function CatalogEntry(name: string): Option<Catalog.Entry> {
    Catalog.Lookup(Lower(name))
  }

  /** `itemData?.category || 'Other'`. */
  function CategoryOf(name: string): string {
    match CatalogEntry(name)
    case Some(e) => e.category
    case None => "Other"
  }

  /** `itemData?.price || 0`, in cents. */
  function PriceOf(name: string): nat {
    match CatalogEntry(name)
    case Some(e) => e.price
    case None => 0
  }

  /** `shoppingList.map(...)`: every item with the same name gets `quantity` more. */
  function Bump(list: seq<Item>, name: string, quantity: nat): seq<Item> {
    seq(|list|, i requires 0 <= i < |list| =>
      if SameName(list[i].name, name) then list[i].(quantity := list[i].quantity + quantity) else list[i])
  }

  /** The list after `addItem(name, quantity)`, where `id` is the id a new item gets. */
  function ListAfterAdd(list: seq<Item>, name: string, quantity: nat, id: nat): seq<Item> {
    if FindByName(list, name).Some? then Bump(list, name, quantity)
    else list + [Item(name, quantity, CategoryOf(name), PriceOf(name), id)]
  }

  /** The history after `addItem(name, quantity)`: a new item's name is recorded unless `includes` finds it exactly. */
  function HistoryAfterAdd(list: seq<Item>, history: seq<string>, name: string): seq<string> {
    if FindByName(list, name).Some? || name in history then history else history + [name]
  }

  /** The message `addItem` shows at once. */
  function AddFeedback(list: seq<Item>, name: string, quantity: nat): string {
    match FindByName(list, name)
    case Some(k) => "Updated " + name + " quantity to " + NatToString(list[k].quantity + quantity)
    case None => "Added " + NatToString(quantity) + " " + name + " to your list"
  }

  /** The message shown later when the catalog lists an alternative, on either path. */
  function Advisory(name: string): Option<string> {
    match CatalogEntry(name)
    case Some(e) =>
      if |e.alternatives| > 0 then Some("Added " + name + ". You might also like " + e.alternatives[0] + "!") else None
    case None => None
  }

  /**
   * Adding a name already on the list adds `quantity` to that item and changes
   * nothing else: not the length, not the other items, not the history.
   */
  lemma AddToExisting(list: seq<Item>, history: seq<string>, name: string, quantity: nat, id: nat)
    requires UniqueNames(list)
    requires FindByName(list, name).Some?
    ensures var k := FindByName(list, name).value;
            var after := ListAfterAdd(list, name, quantity, id);
            && |after| == |list|
            && after[k] == list[k].(quantity := list[k].quantity + quantity)
            && (forall j :: 0 <= j < |list| && j != k ==> after[j] == list[j])
            && HistoryAfterAdd(list, history, name) == history
  {
    var k := FindByName(list, name).value;
    forall j | 0 <= j < |list| && j != k
      ensures !SameName(list[j].name, name)
    {
      if j < k {
      } else {
        assert !SameName(list[k].name, list[j].name);
      }
    }
  }

  /**
   * Adding a new name appends exactly one item, with the category and price the
   * catalog gives under the lower-cased name or `Other` and 0, and records the name
   * in the history unless it is there already, exactly as written.
   */
  lemma AddNew(list: seq<Item>, history: seq<string>, name: string, quantity: nat, id: nat)
    requires FindByName(list, name).None?
    ensures ListAfterAdd(list, name, quantity, id) == list + [Item(name, quantity, CategoryOf(name), PriceOf(name), id)]
    ensures Catalog.Lookup(Lower(name)).Some? ==>
              CategoryOf(name) == Catalog.Lookup(Lower(name)).value.category && PriceOf(name) == Catalog.Lookup(Lower(name)).value.price
    ensures (forall i :: 0 <= i < |Catalog.Entries| ==> Catalog.Entries[i].name != Lower(name)) ==> CategoryOf(name) == "Other" && PriceOf(name) == 0
    ensures HistoryAfterAdd(list, history, name) == if name in history then history else history + [name]
  {
  }

  /** The history never shrinks: it stays as it was or gains the name, once, at its end. */
  lemma HistoryGrows(list: seq<Item>, history: seq<string>, name: string)
    ensures var h := HistoryAfterAdd(list, history, name);
            h == history || (name !in history && h == history + [name])
    ensures |history| <= |HistoryAfterAdd(list, history, name)|
    ensures HistoryAfterAdd(list, history, name)[..|history|] == history
  {
  }

  /** After any add, an item with that name is on the list. */
  lemma AddedNameIsOnList(list: seq<Item>, name: string, quantity: nat, id: nat)
    ensures FindByName(ListAfterAdd(list, name, quantity, id), name).Some?
  {
    var after := ListAfterAdd(list, name, quantity, id);
    if FindByName(list, name).Some? {
      var k := FindByName(list, name).value;
      assert SameName(after[k].name, name);
    } else {
      assert SameName(after[|list|].name, name);
    }
  }

  /** Adding keeps the names unique, the ids unique and below the next id. */
  lemma AddKeepsInvariant(list: seq<Item>, name: string, quantity: nat, id: nat)
    requires UniqueNames(list) && UniqueIds(list) && IdsBelow(list, id)
    ensures var after := ListAfterAdd(list, name, quantity, id);
            UniqueNames(after) && UniqueIds(after) && IdsBelow(after, id + 1)
  {
    var after := ListAfterAdd(list, name, quantity, id);
    if FindByName(list, name).Some? {
      assert forall j :: 0 <= j < |list| ==> after[j].name == list[j].name && after[j].id == list[j].id;
    } else {
      assert forall j :: 0 <= j < |list| ==> after[j] == list[j];
    }
  }

  /** Every item carries the category and price the catalog gives its name. */
  predicate Priced(list: seq<Item>) {
    forall i :: 0 <= i < |list| ==> list[i].category == CategoryOf(list[i].name) && list[i].price == PriceOf(list[i].name)
  }

  /** Adding keeps every item priced from the catalog. */
  lemma AddKeepsPriced(list: seq<Item>, name: string, quantity: nat, id: nat)
    requires Priced(list)
    ensures Priced(ListAfterAdd(list, name, quantity, id))
  {
    var after := ListAfterAdd(list, name, quantity, id);
    forall i | 0 <= i < |after|
      ensures after[i].category == CategoryOf(after[i].name) && after[i].price == PriceOf(after[i].name)
    {
      if i < |list| {
        assert after[i].name == list[i].name && after[i].category == list[i].category && after[i].price == list[i].price;
      }
    }
  }

  /** Changing one item changes the total by the difference of its line totals. */
  lemma TotalUpdate(list: seq<Item>, k: nat, item: Item)
    requires k < |list|
    ensures Total(list[k := item]) + LineTotal(list[k]) == Total(list) + LineTotal(item)
  {
    var updated := list[k := item];
    TotalRemoveAt(list, k);
    TotalRemoveAt(updated, k);
    assert updated[..k] + updated[k + 1..] == list[..k] + list[k + 1..];
  }

  /** Same-named items have the same catalog price. */
  lemma SameNameSamePrice(a: string, b: string)
    requires SameName(a, b)
    ensures PriceOf(a) == PriceOf(b)
  {
    assert CatalogEntry(a) == CatalogEntry(b);
  }

  /** Merging `quantity` into item `k` raises the total by its price times `quantity`. */
  lemma MergeRaisesTotal(list: seq<Item>, k: nat, quantity: nat)
    requires k < |list|
    ensures Total(list[k := list[k].(quantity := list[k].quantity + quantity)]) == Total(list) + list[k].price * quantity
  {
    var bumped := list[k].(quantity := list[k].quantity + quantity);
    TotalUpdate(list, k, bumped);
    assert list[k].price * (list[k].quantity + quantity) == list[k].price * list[k].quantity + list[k].price * quantity;
  }

  /**
   * On a list priced from the catalog with unique names, adding `quantity` of a
   * name raises the total by exactly the catalog price times `quantity`, whether
   * the item is merged or appended.
   */
  lemma AddRaisesTotal(list: seq<Item>, name: string, quantity: nat, id: nat)
    requires UniqueNames(list) && Priced(list)
    ensures Total(ListAfterAdd(list, name, quantity, id)) == Total(list) + PriceOf(name) * quantity
  {
    var after := ListAfterAdd(list, name, quantity, id);
    match FindByName(list, name)
    case Some(k) =>
      AddToExisting(list, [], name, quantity, id);
      assert after == list[k := list[k].(quantity := list[k].quantity + quantity)];
      MergeRaisesTotal(list, k, quantity);
      SameNameSamePrice(list[k].name, name);
    case None =>
      var item := Item(name, quantity, CategoryOf(name), PriceOf(name), id);
      TotalAppend(list, [item]);
      assert Total([item]) == LineTotal(item) by {
        assert [item][..0] == [];
      }
  }

  /** The invariant the assistant keeps: unique names and ids, ids below `nextId`, prices from the catalog. */
  predicate WellFormed(list: seq<Item>, nextId: nat) {
    UniqueNames(list) && UniqueIds(list) && IdsBelow(list, nextId) && Priced(list)
  }

  /** Adding keeps the list well formed, with the next id one higher. */
  lemma AddKeepsWellFormed(list: seq<Item>, name: string, quantity: nat, id: nat)
    requires WellFormed(list, id)
    ensures WellFormed(ListAfterAdd(list, name, quantity, id), id + 1)
  {
    AddKeepsInvariant(list, name, quantity, id);
    AddKeepsPriced(list, name, quantity, id);
  }

  // ---------------------------------------------------------------------------
  // removeItem
  // ---------------------------------------------------------------------------

  /** `shoppingList.filter(i => i.id !== id)`. */
  function WithoutId(list: seq<Item>, id: nat): (r: seq<Item>)
    ensures forall j :: 0 <= j < |r| ==> r[j].id != id && r[j] in list
  {
    if list == [] then []
    else if list[0].id == id then WithoutId(list[1..], id)
    else [list[0]] + WithoutId(list[1..], id)
  }

  lemma {:induction false} WithoutAbsentId(list: seq<Item>, id: nat)
    requires forall j :: 0 <= j < |list| ==> list[j].id != id
    ensures WithoutId(list, id) == list
  {
    if list != [] {
      WithoutAbsentId(list[1..], id);
      assert list == [list[0]] + list[1..];
    }
  }

  /** With unique ids, filtering out the id of item `k` removes exactly that item and keeps the rest in order. */
  lemma {:induction false} WithoutIdRemovesOne(list: seq<Item>, k: nat)
    requires UniqueIds(list) && k < |list|
    ensures WithoutId(list, list[k].id) == list[..k] + list[k + 1..]
  {
    if k == 0 {
      WithoutAbsentId(list[1..], list[0].id);
    } else {
      assert UniqueIds(list[1..]);
      WithoutIdRemovesOne(list[1..], k - 1);
      assert list[1..][k - 1].id == list[k].id;
      assert list[..k] + list[k + 1..] == [list[0]] + (list[1..][..k - 1] + list[1..][k..]);
    }
  }

  /** The list after `removeItem(fragment)`. */
  function ListAfterRemove(list: seq<Item>, fragment: string): seq<Item> {
    match FindContaining(list, fragment)
    case Some(k) => WithoutId(list, list[k].id)
    case None => list
  }

  /** The message `removeItem` shows. */
  function RemoveFeedback(list: seq<Item>, fragment: string): string {
    match FindContaining(list, fragment)
    case Some(k) => "Removed " + list[k].name + " from your list"
    case None => fragment + " not found in your list"
  }

  /**
   * Removing takes out the first item whose name contains the fragment, keeping
   * every other item in order, and the total drops by exactly its line total.
   */
  lemma RemoveFound(list: seq<Item>, fragment: string)
    requires UniqueIds(list)
    requires FindContaining(list, fragment).Some?
    ensures var k := FindContaining(list, fragment).value;
            && ListAfterRemove(list, fragment) == list[..k] + list[k + 1..]
            && Total(ListAfterRemove(list, fragment)) + LineTotal(list[k]) == Total(list)
            && RemoveFeedback(list, fragment) == "Removed " + list[k].name + " from your list"
  {
    var k := FindContaining(list, fragment).value;
    WithoutIdRemovesOne(list, k);
    TotalRemoveAt(list, k);
  }

  /** When no name contains the fragment, the list stays as it was. */
  lemma RemoveNotFound(list: seq<Item>, fragment: string)
    requires forall j :: 0 <= j < |list| ==> !Includes(Lower(list[j].name), Lower(fragment))
    ensures ListAfterRemove(list, fragment) == list
    ensures RemoveFeedback(list, fragment) == fragment + " not found in your list"
  {
    assert FindContaining(list, fragment).None?;
  }

  /** Removing keeps every item priced from the catalog. */
  lemma RemoveKeepsPriced(list: seq<Item>, fragment: string)
    requires Priced(list)
    ensures Priced(ListAfterRemove(list, fragment))
  {
    var after := ListAfterRemove(list, fragment);
    forall i | 0 <= i < |after|
      ensures after[i].category == CategoryOf(after[i].name) && after[i].price == PriceOf(after[i].name)
    {
      var j :| 0 <= j < |list| && list[j] == after[i];
    }
  }

  /** Removing keeps the list well formed. */
  lemma RemoveKeepsWellFormed(list: seq<Item>, fragment: string, nextId: nat)
    requires WellFormed(list, nextId)
    ensures WellFormed(ListAfterRemove(list, fragment), nextId)
  {
    RemoveKeepsInvariant(list, fragment, nextId);
    RemoveKeepsPriced(list, fragment);
  }

  /** The position in the list of position `j` of the list without item `k`. */
  function Skip(j: nat, k: nat): nat {
    if j < k then j else j + 1
  }

  /** Removing keeps the names unique, the ids unique and below the next id. */
  lemma RemoveKeepsInvariant(list: seq<Item>, fragment: string, nextId: nat)
    requires UniqueNames(list) && UniqueIds(list) && IdsBelow(list, nextId)
    ensures var after := ListAfterRemove(list, fragment);
            UniqueNames(after) && UniqueIds(after) && IdsBelow(after, nextId)
  {
    if FindContaining(list, fragment).Some? {
      var k := FindContaining(list, fragment).value;
      WithoutIdRemovesOne(list, k);
      DropKeepsInvariant(list, k, nextId);
    }
  }

  /** Dropping the item at `k` keeps the names unique, the ids unique and below the next id. */
  lemma DropKeepsInvariant(list: seq<Item>, k: nat, nextId: nat)
    requires k < |list| && UniqueNames(list) && UniqueIds(list) && IdsBelow(list, nextId)
    ensures var after := list[..k] + list[k + 1..];
            UniqueNames(after) && UniqueIds(after) && IdsBelow(after, nextId)
  {
    var after := list[..k] + list[k + 1..];
    forall i | 0 <= i < |after|
      ensures after[i] == list[Skip(i, k)]
    {
    }
    forall i, j | 0 <= i < j < |after|
      ensures after[i].id != after[j].id && !SameName(after[i].name, after[j].name)
    {
      assert Skip(i, k) < Skip(j, k) < |list|;
    }
  }

  // ---------------------------------------------------------------------------
  // groupedItems
  // ---------------------------------------------------------------------------

  /** The items filed under one category, in the order they were pushed. */
  datatype Group = Group(category: string, items: seq<Item>)

  /** The categories of the list, each once, in order of first appearance. */
  function Categories(list: seq<Item>): (r: seq<string>)
    ensures forall c :: c in r <==> exists i :: 0 <= i < |list| && list[i].category == c
  {
    if list == [] then []
    else
      var cs := Categories(list[..|list| - 1]);
      assert forall i :: 0 <= i < |list| - 1 ==> list[..|list| - 1][i] == list[i];
      if list[|list| - 1].category in cs then cs else cs + [list[|list| - 1].category]
  }

  /** The items of category `c`, in list order. */
  function InCategory(list: seq<Item>, c: string): seq<Item> {
    if list == [] then []
    else InCategory(list[..|list| - 1], c) + if list[|list| - 1].category == c then [list[|list| - 1]] else []
  }

  /** Reference definition of the grouping: one group per category, in order of first appearance, holding that category's items in list order. */
  function Grouping(list: seq<Item>): seq<Group> {
    var cs := Categories(list);
    seq(|cs|, k requires 0 <= k < |cs| => Group(cs[k], InCategory(list, cs[k])))
  }

  /** The categories of the first `q` items come first: the categories are listed in order of first appearance. */
  lemma {:induction false} CategoriesPrefix(list: seq<Item>, q: nat)
    requires q <= |list|
    ensures Categories(list[..q]) <= Categories(list)
  {
    if q < |list| {
      var init := list[..|list| - 1];
      assert init[..q] == list[..q];
      CategoriesPrefix(init, q);
    } else {
      assert list[..q] == list;
    }
  }

  /** An item of a later category always has one of each earlier category before it. */
  lemma CategoriesInFirstAppearanceOrder(list: seq<Item>, i: nat, j: nat, q: nat)
    requires i < j < |Categories(list)| && q < |list| && list[q].category == Categories(list)[j]
    ensures exists p :: 0 <= p < q && list[p].category == Categories(list)[i]
  {
    var cs := Categories(list);
    var head := list[..q + 1];
    var ps := Categories(head);
    CategoriesPrefix(list, q + 1);
    CategoriesDistinct(list);
    assert head[q] == list[q];
    assert cs[j] in ps;
    var k :| 0 <= k < |ps| && ps[k] == cs[j];
    assert cs[k] == cs[j];
    assert j < |ps|;
    assert ps[i] == cs[i];
    assert cs[i] in ps;
    var p :| 0 <= p < |head| && head[p].category == cs[i];
    assert list[p] == head[p];
    assert p != q;
  }

  /** A group keeps its items in list order. */
  lemma {:induction false} InCategoryIsSubsequence(list: seq<Item>, c: string)
    ensures IsSubsequence(InCategory(list, c), list)
  {
    if list != [] {
      var init := list[..|list| - 1];
      var last := list[|list| - 1];
      assert list == init + [last];
      InCategoryIsSubsequence(init, c);
      if last.category == c {
        SubsequenceExtendBoth(InCategory(init, c), init, last);
      } else {
        assert InCategory(list, c) == InCategory(init, c);
        SubsequenceExtend(InCategory(init, c), init, last);
      }
    }
  }

  /** Where the group of `category` sits, if there is one. */
  function GroupIndex(groups: seq<Group>, category: string): (r: Option<nat>)
    ensures r.Some? ==> r.value < |groups| && groups[r.value].category == category
    ensures r.None? ==> forall k :: 0 <= k < |groups| ==> groups[k].category != category
  {
    if groups == [] then None
    else if groups[0].category == category then Some(0)
    else match GroupIndex(groups[1..], category)
      case Some(k) => Some(k + 1)
      case None => None
  }

  /** One step of the `reduce`: create the category's group when missing, then push the item onto it. */
  function Place(groups: seq<Group>, item: Item): seq<Group> {
    match GroupIndex(groups, item.category)
    case Some(k) => groups[k := Group(item.category, groups[k].items + [item])]
    case None => groups + [Group(item.category, [item])]
  }

  /** The categories of the reference grouping are distinct. */
  lemma {:induction false} CategoriesDistinct(list: seq<Item>)
    ensures forall i, j :: 0 <= i < j < |Categories(list)| ==> Categories(list)[i] != Categories(list)[j]
  {
    if list != [] {
      CategoriesDistinct(list[..|list| - 1]);
    }
  }

  /** Pushing one more item onto the reference grouping gives the reference grouping of the longer list. */
  lemma GroupingStep(list: seq<Item>, item: Item)
    ensures Grouping(list + [item]) == Place(Grouping(list), item)
  {
    var longer := list + [item];
    assert longer[..|longer| - 1] == list;
    var cs := Categories(list);
    var gs := Grouping(list);
    CategoriesDistinct(list);
    assert forall c :: InCategory(longer, c) == InCategory(list, c) + if item.category == c then [item] else [];
    match GroupIndex(gs, item.category)
    case Some(k) =>
      assert cs[k] == item.category;
      assert Categories(longer) == cs;
      forall i | 0 <= i < |cs|
        ensures Grouping(longer)[i] == Place(gs, item)[i]
      {
        if i != k {
          assert cs[i] != item.category;
        }
      }
    case None =>
      assert forall i :: 0 <= i < |cs| ==> gs[i].category == cs[i];
      assert item.category !in cs;
      assert Categories(longer) == cs + [item.category];
      InCategoryAbsent(list, item.category);
      assert |Grouping(longer)| == |Place(gs, item)|;
      forall i | 0 <= i < |cs| + 1
        ensures Grouping(longer)[i] == Place(gs, item)[i]
      {
        if i < |cs| {
          assert cs[i] != item.category;
        }
      }
  }

  lemma {:induction false} InCategoryAbsent(list: seq<Item>, c: string)
    requires c !in Categories(list)
    ensures InCategory(list, c) == []
  {
    if list != [] {
      assert list[|list| - 1].category in Categories(list);
      InCategoryAbsent(list[..|list| - 1], c);
    }
  }

  /** All the items of the groups, group after group. */
  function Flatten(groups: seq<Group>): seq<Item> {
    if groups == [] then [] else groups[0].items + Flatten(groups[1..])
  }

  lemma {:induction false} FlattenAppend(groups: seq<Group>, g: Group)
    ensures Flatten(groups + [g]) == Flatten(groups) + g.items
  {
    if groups != [] {
      assert (groups + [g])[1..] == groups[1..] + [g];
      FlattenAppend(groups[1..], g);
    } else {
      assert [g][1..] == [];
    }
  }

  lemma {:induction false} FlattenUpdate(groups: seq<Group>, k: nat, item: Item)
    requires k < |groups|
    ensures multiset(Flatten(groups[k := Group(groups[k].category, groups[k].items + [item])]))
            == multiset(Flatten(groups)) + multiset{item}
  {
    var updated := groups[k := Group(groups[k].category, groups[k].items + [item])];
    if k == 0 {
      assert updated[1..] == groups[1..];
    } else {
      assert updated[1..] == groups[1..][k - 1 := Group(groups[k].category, groups[k].items + [item])];
      FlattenUpdate(groups[1..], k - 1, item);
    }
  }

  /** Every item of the list appears in the grouping exactly as often as in the list. */
  lemma {:induction false} GroupingKeepsEveryItem(list: seq<Item>)
    ensures multiset(Flatten(Grouping(list))) == multiset(list)
    decreases |list|
  {
    if list == [] {
    } else {
      var init := list[..|list| - 1];
      var item := list[|list| - 1];
      assert list == init + [item];
      GroupingKeepsEveryItem(init);
      GroupingStep(init, item);
      match GroupIndex(Grouping(init), item.category)
      case Some(k) => FlattenUpdate(Grouping(init), k, item);
      case None => FlattenAppend(Grouping(init), Group(item.category, [item]));
    }
  }

  /** Each group holds only items of its own category. */
  lemma {:induction false} InCategoryOnly(list: seq<Item>, c: string)
    ensures forall i :: 0 <= i < |InCategory(list, c)| ==> InCategory(list, c)[i].category == c
  {
    if list != [] {
      InCategoryOnly(list[..|list| - 1], c);
    }
  }

  /**
   * `groupedItems`: the `reduce` that creates a category's group when it is first
   * met and pushes each item onto its group. The result is the reference grouping,
   * holding every item of the list exactly once, each under its own category.
   */
  method GroupItems(list: seq<Item>) returns (groups: seq<Group>)
    ensures groups == Grouping(list)
    ensures multiset(Flatten(groups)) == multiset(list)
    ensures forall k, i :: 0 <= k < |groups| && 0 <= i < |groups[k].items| ==> groups[k].items[i].category == groups[k].category
  {
    groups := [];
    for i := 0 to |list|
      invariant groups == Grouping(list[..i])
    {
      var item := list[i];
      assert list[..i + 1] == list[..i] + [item];
      GroupingStep(list[..i], item);
      var k := GroupIndex(groups, item.category);
      if k.None? {
        groups := groups + [Group(item.category, [])];
        k := Some(|groups| - 1);
      }
      groups := groups[k.value := Group(item.category, groups[k.value].items + [item])];
    }
    assert list[..|list|] == list;
    GroupingKeepsEveryItem(list);
    forall k | 0 <= k < |groups|
      ensures forall i :: 0 <= i < |groups[k].items| ==> groups[k].items[i].category == groups[k].category
    {
      InCategoryOnly(list, groups[k].category);
    }
  }
}
