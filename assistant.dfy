/**
 * The state of the voice shopping assistant and the operations that replace it:
 * adding and removing items, searching the catalog, refreshing the suggestions and
 * dispatching a spoken command. Each operation is a method on the explicit current
 * state; its contract gives the new state as the functions of modules ShoppingList,
 * CatalogSearch, Suggestions and Parser applied to the state before the call.
 */
module Assistant {
  import opened Options
  import Catalog
  import Parser
  import opened ShoppingList
  import CatalogSearch
  import opened Suggestions

  /** The purchase history the assistant starts with. */
  const InitialHistory: seq<string> := ["milk", "bread", "eggs", "apples", "chicken"]

  /** The message for an utterance no pattern recognises. */
  const NotUnderstood: string := "I didn't understand that. Try 'add milk' or 'remove bread'"

  class VoiceShoppingAssistant {
    var list: seq<Item>
    var history: seq<string>
    /** The id the next new item gets. */
    var nextId: nat
    var feedback: string
    var suggestions: seq<Suggestion>
    var searchResults: seq<Catalog.Entry>

    /**
     * Names are unique case-insensitively, ids are unique and below `nextId`, and
     * every item carries its catalog category and price.
     */
    ghost predicate Valid()
      reads this
    {
      WellFormed(list, nextId)
    }

    /** The first render: an empty list, the initial history and the first suggestions. */
    constructor (coins: seq<bool>)
      ensures Valid()
      ensures list == [] && history == InitialHistory && nextId == 0 && feedback == "" && searchResults == []
      ensures suggestions == SmartSuggestions([], InitialHistory, coins)
    {
      var first := GenerateSmartSuggestions([], InitialHistory, coins, Catalog.Entries);
      list := [];
      history := InitialHistory;
      nextId := 0;
      feedback := "";
      searchResults := [];
      suggestions := first;
    }

    /**
     * `generateSmartSuggestions()` on the current list and history. `addItem` and
     * `removeItem` call it in the same event as their list update, which it does
     * not yet see, so they call it before making their own changes.
     */
    method RefreshSuggestions(coins: seq<bool>)
      requires Valid()
      modifies this
      ensures Valid()
      ensures suggestions == SmartSuggestions(list, history, coins)
      ensures list == old(list) && history == old(history) && nextId == old(nextId)
      ensures feedback == old(feedback) && searchResults == old(searchResults)
    {
      suggestions := GenerateSmartSuggestions(list, history, coins, Catalog.Entries);
    }

    /**
     * `addItem(name, quantity)`: the list, history and message become what
     * ShoppingList.AddToExisting and ShoppingList.AddNew describe, and a new item
     * gets the next id. Returns the deferred advisory naming the first alternative,
     * if the catalog lists one. The suggestions are regenerated from the list and
     * history as they were before the add.
     */
    method AddItem(name: string, quantity: nat, coins: seq<bool>) returns (advisory: Option<string>)
      requires Valid()
      modifies this
      ensures Valid()
      ensures list == ListAfterAdd(old(list), name, quantity, old(nextId))
      ensures history == HistoryAfterAdd(old(list), old(history), name)
      ensures feedback == AddFeedback(old(list), name, quantity)
      ensures advisory == Advisory(name)
      ensures suggestions == SmartSuggestions(old(list), old(history), coins)
      ensures nextId == old(nextId) + 1 && searchResults == old(searchResults)
    {
      var before, beforeHistory := list, history;
      AddKeepsWellFormed(before, name, quantity, nextId);
      RefreshSuggestions(coins);
      list := ListAfterAdd(before, name, quantity, nextId);
      history := HistoryAfterAdd(before, beforeHistory, name);
      feedback := AddFeedback(before, name, quantity);
      nextId := nextId + 1;
      advisory := Advisory(name);
    }

    /**
     * `removeItem(fragment)`: the list and message become what ShoppingList.RemoveFound
     * and ShoppingList.RemoveNotFound describe; the suggestions are regenerated, from
     * the list before the removal, only when an item went.
     */
    method RemoveItem(fragment: string, coins: seq<bool>)
      requires Valid()
      modifies this
      ensures Valid()
      ensures list == ListAfterRemove(old(list), fragment)
      ensures feedback == RemoveFeedback(old(list), fragment)
      ensures suggestions == if FindContaining(old(list), fragment).Some? then SmartSuggestions(old(list), old(history), coins) else old(suggestions)
      ensures history == old(history) && nextId == old(nextId) && searchResults == old(searchResults)
    {
      var before := list;
      RemoveKeepsWellFormed(before, fragment, nextId);
      if FindContaining(before, fragment).Some? {
        RefreshSuggestions(coins);
      }
      list := ListAfterRemove(before, fragment);
      feedback := RemoveFeedback(before, fragment);
    }

    /** `performSearch(query, maxPrice)`: sets the results and the message, and touches nothing else. */
    method PerformSearch(query: string, maxPrice: Option<nat>)
      requires Valid()
      modifies this
      ensures Valid()
      ensures searchResults == CatalogSearch.SearchCatalog(query, maxPrice)
      ensures feedback == CatalogSearch.SearchFeedback(searchResults, query)
      ensures list == old(list) && history == old(history) && nextId == old(nextId) && suggestions == old(suggestions)
    {
      searchResults := CatalogSearch.SearchCatalog(query, maxPrice);
      feedback := CatalogSearch.SearchFeedback(searchResults, query);
    }

    /**
     * `processVoiceCommand(text)`: the command the parser finds decides the one
     * operation that runs; an utterance it does not recognise only sets the fixed
     * message and leaves the list, history, suggestions and search results as they were.
     */
    method ProcessVoiceCommand(text: string, coins: seq<bool>) returns (advisory: Option<string>)
      requires Valid()
      modifies this
      ensures Valid()
      ensures Parser.Parse(text).Add? ==>
                var name, quantity := Parser.Parse(text).name, Parser.Parse(text).quantity;
                && list == ListAfterAdd(old(list), name, quantity, old(nextId))
                && history == HistoryAfterAdd(old(list), old(history), name)
                && feedback == AddFeedback(old(list), name, quantity)
                && advisory == Advisory(name)
                && suggestions == SmartSuggestions(old(list), old(history), coins)
                && nextId == old(nextId) + 1
                && searchResults == old(searchResults)
      ensures Parser.Parse(text).Remove? ==>
                var fragment := Parser.Parse(text).fragment;
                && list == ListAfterRemove(old(list), fragment)
                && feedback == RemoveFeedback(old(list), fragment)
                && suggestions == (if FindContaining(old(list), fragment).Some?
                                   then SmartSuggestions(old(list), old(history), coins) else old(suggestions))
                && history == old(history) && nextId == old(nextId)
                && searchResults == old(searchResults) && advisory == None
      ensures Parser.Parse(text).Search? ==>
                && searchResults == CatalogSearch.SearchCatalog(Parser.Parse(text).query, Parser.Parse(text).maxPrice)
                && feedback == CatalogSearch.SearchFeedback(searchResults, Parser.Parse(text).query)
                && list == old(list) && history == old(history) && nextId == old(nextId)
                && suggestions == old(suggestions) && advisory == None
      ensures Parser.Parse(text).Unrecognized? ==>
                && feedback == NotUnderstood
                && list == old(list) && history == old(history) && nextId == old(nextId)
                && suggestions == old(suggestions) && searchResults == old(searchResults) && advisory == None
    {
      var intent := Parser.Interpret(text);
      advisory := None;
      match intent
      case Remove(fragment) =>
        RemoveItem(fragment, coins);
      case Search(query, maxPrice) =>
        PerformSearch(query, maxPrice);
      case Add(name, quantity) =>
        advisory := AddItem(name, quantity, coins);
      case Unrecognized =>
        feedback := NotUnderstood;
    }
  }
}
