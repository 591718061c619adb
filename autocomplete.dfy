/**
 * The autocomplete input: the items offered under the text field are the
 * ones containing the typed text, ignoring case, with the typed text
 * itself offered first when it is not already one of the items.
 */
module InputSelect {
  import opened JsText

  /** `item.toLowerCase().includes(value.toLowerCase())`. */
  predicate Matches(item: string, value: string)
  {
    Includes(Lower(item), Lower(value))
  }

  /** `a` is `b` with some elements removed, the rest in their order. */
  predicate IsSubsequence(a: seq<string>, b: seq<string>)
    decreases |b|
  {
    if a == [] then true
    else if b == [] then false
    else if a[0] == b[0] then IsSubsequence(a[1..], b[1..])
    else IsSubsequence(a, b[1..])
  }

  /**
   * `items.filter(...)`: exactly the matching items, in their original
   * order.
   */
  function Filter(items: seq<string>, value: string): (kept: seq<string>)
    ensures forall i :: 0 <= i < |kept| ==> Matches(kept[i], value) && kept[i] in items
    ensures forall x :: x in items && Matches(x, value) ==> x in kept
    ensures IsSubsequence(kept, items)
    ensures forall x :: multiset(kept)[x] == if Matches(x, value) then multiset(items)[x] else 0
  {
    if items == [] then []
    else
      var rest := Filter(items[1..], value);
      assert multiset(items) == multiset{items[0]} + multiset(items[1..]) by { assert items == [items[0]] + items[1..]; }
      if Matches(items[0], value) then [items[0]] + rest else rest
  }

  /**
   * The offered list: the matching items, preceded by the typed value
   * when it is non-empty and not exactly one of the items.
   */
  function FilteredItems(items: seq<string>, value: string): (shown: seq<string>)
    ensures value != [] && value !in items ==> |shown| >= 1 && shown[0] == value && shown[1..] == Filter(items, value)
    ensures value == [] || value in items ==> shown == Filter(items, value)
  {
    var kept := Filter(items, value);
    if value != [] && value !in items then [value] + kept else kept
  }

  /** Every item contains the empty text. */
  lemma {:induction false} FilterEmptyKeepsAll(items: seq<string>)
    ensures Filter(items, []) == items
  {
    if items != [] {
      IncludesEmpty(Lower(items[0]));
      assert Lower([]) == [];
      FilterEmptyKeepsAll(items[1..]);
    }
  }

  /** With nothing typed, every item is offered. */
  lemma EmptyValueOffersAll(items: seq<string>)
    ensures FilteredItems(items, []) == items
  {
    FilterEmptyKeepsAll(items);
  }

  /** Every offered entry other than a prepended typed value is an item that matches it. */
  lemma OfferedMatch(items: seq<string>, value: string, i: nat)
    requires i < |FilteredItems(items, value)|
    ensures var s := FilteredItems(items, value);
      (value != [] && value !in items && i == 0) || (s[i] in items && Matches(s[i], value))
  {
  }

  /** When the typed value is exactly an item, the offered list is drawn from the items in order. */
  lemma ExactValueOffersSubsequence(items: seq<string>, value: string)
    requires value in items
    ensures IsSubsequence(FilteredItems(items, value), items)
  {
  }

  /** Whether the dropdown is drawn: it is visible and has something to offer. */
  predicate DropdownShown(visible: bool, shown: seq<string>)
  {
    visible && |shown| > 0
  }

  /** The input's state: the text in the field (held by the parent) and whether the list is open. */
  datatype InputState = InputState(value: string, listVisible: bool)

  /**
   * `handleSelectItem(item)`: the parent receives the item as the new value
   * and the list is closed, so no dropdown is drawn afterwards.
   */
  function SelectItem(st: InputState, item: string): (next: InputState)
    ensures next.value == item && !next.listVisible
    ensures forall shown :: !DropdownShown(next.listVisible, shown)
  {
    InputState(item, false)
  }

  /** Selecting an offered item makes it the value, and then it is offered first or as a match. */
  lemma SelectedItemStaysOffered(st: InputState, items: seq<string>, item: string)
    requires item in items
    ensures var next := SelectItem(st, item);
      item in FilteredItems(items, next.value)
  {
    assert OccursAt(Lower(item), Lower(item), 0);
  }
}
