/** The searchable dropdown (DropdownAdapter): a fixed list of strings, the
    currently shown sub-list, and the filter that narrows it to the items
    containing the typed text, ignoring case. */
module Dropdown {
  import opened Base
  import opened Text

  /** The adapter's state: all items and the ones currently shown. */
  datatype Adapter = Adapter(items: seq<string>, filtered: seq<string>)

  /** A new adapter shows every item. */
  function NewAdapter(items: seq<string>): (a: Adapter)
    ensures a.filtered == a.items == items
  {
    Adapter(items, items)
  }

  /** `item.lowercase().contains(query)`, with the query already lowered. */
  predicate Matches(item: string, query: string) {
    Contains(LowerStr(item), query)
  }

  /** The items that contain `query`, in their original order. */
  function FilterItems(items: seq<string>, query: string): (r: seq<string>)
    ensures |r| <= |items|
    ensures forall i :: 0 <= i < |r| ==> r[i] in items && Matches(r[i], query)
    ensures forall i :: 0 <= i < |items| && Matches(items[i], query) ==> items[i] in r
  {
    if |items| == 0 then []
    else
      var rest := FilterItems(items[1..], query);
      assert forall i :: 1 <= i < |items| ==> items[i] == items[1..][i - 1];
      if Matches(items[0], query) then [items[0]] + rest else rest
  }

  /** Filtering keeps every matching item exactly as often as it occurs and
      no other item: the result is, as a multiset, the matching part of the
      items. */
  lemma {:induction false} FilterCounts(items: seq<string>, query: string)
    ensures forall x :: multiset(FilterItems(items, query))[x] == if Matches(x, query) then multiset(items)[x] else 0
    decreases |items|
  {
    if |items| > 0 {
      FilterCounts(items[1..], query);
      assert items == [items[0]] + items[1..];
    }
  }

  /** `r` can be obtained from `s` by deleting elements. */
  predicate SubsequenceOf(r: seq<string>, s: seq<string>)
    decreases |s|
  {
    if |r| == 0 then true
    else if |s| == 0 then false
    else if r[0] == s[0] then SubsequenceOf(r[1..], s[1..])
    else SubsequenceOf(r, s[1..])
  }

  lemma {:induction false} SubsequenceOfSelf(s: seq<string>)
    ensures SubsequenceOf(s, s)
    decreases |s|
  {
    if |s| > 0 {
      SubsequenceOfSelf(s[1..]);
    }
  }

  lemma {:induction false} SubsequenceOfDrop(r: seq<string>, s: seq<string>)
    requires |s| > 0 && SubsequenceOf(r, s[1..])
    ensures SubsequenceOf(r, s)
    decreases |r| + |s|
  {
    if |r| > 0 && r[0] == s[0] {
      SubsequenceDropHead(r, s[1..]);
    }
  }

  /** A subsequence stays one when its first element is removed. */
  lemma {:induction false} SubsequenceDropHead(r: seq<string>, s: seq<string>)
    requires |r| > 0 && SubsequenceOf(r, s)
    ensures SubsequenceOf(r[1..], s)
    decreases |r| + |s|
  {
    if r[0] == s[0] {
      SubsequenceOfDrop(r[1..], s);
    } else {
      SubsequenceDropHead(r, s[1..]);
      SubsequenceOfDrop(r[1..], s);
    }
  }

  /** The filtered list is an order-preserving sub-list of the items. */
  lemma {:induction false} FilteredIsSubsequence(items: seq<string>, query: string)
    ensures SubsequenceOf(FilterItems(items, query), items)
    decreases |items|
  {
    if |items| > 0 {
      var rest := FilterItems(items[1..], query);
      FilteredIsSubsequence(items[1..], query);
      if Matches(items[0], query) {
        assert ([items[0]] + rest)[1..] == rest;
      } else {
        SubsequenceOfDrop(rest, items);
      }
    }
  }

  /** Every item contains the empty query, so filtering by it keeps all:
      the "null or empty" short cut shows what filtering would show. */
  lemma {:induction false} EmptyQueryKeepsAll(items: seq<string>)
    ensures FilterItems(items, "") == items
    decreases |items|
  {
    if |items| > 0 {
      EmptyQueryKeepsAll(items[1..]);
      assert OccursAt(LowerStr(items[0]), "", 0);
    }
  }

  /** What a filter pass hands to `publishResults`: the list (None when it
      is not a list of strings) and its size. */
  datatype FilterResults = FilterResults(values: Option<seq<string>>, count: int)

  /** `performFiltering`: a missing or empty constraint shows all items,
      anything else the items containing it, ignoring case. The pass also
      stores its list in the adapter. */
  function PerformFiltering(a: Adapter, constraint: Option<string>): (r: (Adapter, FilterResults))
    ensures r.0.items == a.items
    ensures r.1.values == Some(r.0.filtered) && r.1.count == |r.0.filtered|
    ensures constraint.None? || constraint.value == "" ==> r.0.filtered == a.items
    ensures constraint.Some? ==> forall x :: x in r.0.filtered <==>
      x in a.items && Contains(LowerStr(x), LowerStr(constraint.value))
    ensures constraint.Some? ==> forall x ::
      multiset(r.0.filtered)[x] == if Contains(LowerStr(x), LowerStr(constraint.value)) then multiset(a.items)[x] else 0
    ensures SubsequenceOf(r.0.filtered, a.items)
  {
    if constraint.None? || |constraint.value| == 0 then
      SubsequenceOfSelf(a.items);
      EmptyQueryKeepsAll(a.items);
      FilterCounts(a.items, "");
      assert LowerStr("") == "";
      (a.(filtered := a.items), FilterResults(Some(a.items), |a.items|))
    else
      var query := LowerStr(constraint.value);
      var shown := FilterItems(a.items, query);
      FilteredIsSubsequence(a.items, query);
      FilterCounts(a.items, query);
      (a.(filtered := shown), FilterResults(Some(shown), |shown|))
  }

  /** `publishResults`: the results' list, or all items when there is none. */
  function PublishResults(a: Adapter, results: Option<FilterResults>): (r: Adapter)
    ensures r.items == a.items
    ensures results.Some? && results.value.values.Some? ==> r.filtered == results.value.values.value
    ensures results.None? || results.value.values.None? ==> r.filtered == a.items
  {
    if results.Some? && results.value.values.Some? then a.(filtered := results.value.values.value)
    else a.(filtered := a.items)
  }

  /** Publishing a filter pass's own results shows that pass's list, and the
      reported count is the number of rows the list shows. */
  lemma FilterThenPublish(a: Adapter, constraint: Option<string>)
    ensures var (b, res) := PerformFiltering(a, constraint);
      PublishResults(b, Some(res)) == b && GetCount(b) == res.count
  {
  }

  /** Publishing no results undoes any earlier filter: the list shows what a
      pass without a constraint shows. */
  lemma PublishWithoutResultsResets(a: Adapter, constraint: Option<string>)
    ensures var (b, _) := PerformFiltering(a, constraint);
      PublishResults(b, None) == PerformFiltering(a, None).0
  {
  }

  /** `getCount`. */
  function GetCount(a: Adapter): (n: nat)
    ensures n == |a.filtered|
  {
    |a.filtered|
  }

  /** `getItem(position)`, for the positions the list asks for. */
  function GetItem(a: Adapter, position: nat): (r: string)
    requires position < GetCount(a)
    ensures r in a.filtered
  {
    a.filtered[position]
  }
}
