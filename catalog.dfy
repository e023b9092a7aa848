/**
 * The fixed product table the assistant looks items up in, keyed by a lower-case
 * name, in declaration order (the order search results and seasonal suggestions
 * follow). Prices are in cents.
 */
module Catalog {
  import opened Options

  datatype Entry = Entry(name: string, category: string, price: nat, alternatives: seq<string>, seasonal: bool)

  const Entries: seq<Entry> := [
    Entry("milk", "Dairy", 399, ["almond milk", "oat milk", "soy milk"], false),
    Entry("almond milk", "Dairy", 449, ["oat milk", "soy milk"], false),
    Entry("oat milk", "Dairy", 499, ["almond milk", "soy milk"], false),
    Entry("bread", "Bakery", 299, ["bagels", "tortillas"], false),
    Entry("apples", "Produce", 199, ["oranges", "pears"], true),
    Entry("bananas", "Produce", 99, ["plantains"], true),
    Entry("oranges", "Produce", 249, ["apples", "grapefruits"], true),
    Entry("water", "Beverages", 99, ["sparkling water"], false),
    Entry("eggs", "Dairy", 499, [], false),
    Entry("cheese", "Dairy", 599, ["vegan cheese"], false),
    Entry("chicken", "Meat", 799, ["tofu", "turkey"], false),
    Entry("rice", "Grains", 349, ["quinoa", "couscous"], false),
    Entry("pasta", "Grains", 199, ["rice noodles"], false),
    Entry("toothpaste", "Personal Care", 399, ["tooth powder"], false),
    Entry("shampoo", "Personal Care", 699, ["soap bars"], false),
    Entry("chips", "Snacks", 349, ["crackers", "popcorn"], false),
    Entry("cookies", "Snacks", 449, ["granola bars"], false),
    Entry("tomatoes", "Produce", 299, ["cherry tomatoes"], true),
    Entry("lettuce", "Produce", 199, ["spinach", "kale"], true),
    Entry("yogurt", "Dairy", 449, ["greek yogurt"], false),
    Entry("coffee", "Beverages", 899, ["tea"], false)
  ]

  /** `PRODUCT_DATABASE[key]`: the entry stored under exactly `key`, if any. */
  function Lookup(key: string): (r: Option<Entry>)
    ensures r.Some? ==> r.value in Entries && r.value.name == key
    ensures r.None? ==> forall i :: 0 <= i < |Entries| ==> Entries[i].name != key
  {
    LookupFrom(key, 0)
  }

  function LookupFrom(key: string, i: nat): (r: Option<Entry>)
    requires i <= |Entries|
    ensures r.Some? ==> r.value in Entries[i..] && r.value.name == key
    ensures r.None? ==> forall j :: i <= j < |Entries| ==> Entries[j].name != key
    decreases |Entries| - i
  {
    if i == |Entries| then None
    else if Entries[i].name == key then Some(Entries[i])
    else LookupFrom(key, i + 1)
  }

}
