/**
 The selector: a list with a filter, a focused row and a ten-row window.
 */
module Selector {
  import opened Options
  import opened Filter
  import opened Sublists
  import Headings
  import Search

  const VIEWPORT: nat := 10

  /** `armed` names the session whose deletion awaits a second keypress. */
  datatype State = State(
    items: seq<Item>, pool: seq<Item>, focus: nat, scroll: nat, query: string,
    model: bool, circular: bool, listFocused: bool, armed: Option<string>)

  // ----- the window -----

  function MaxOffset(total: nat): nat { if total <= VIEWPORT then 0 else total - VIEWPORT }

  function Distance(a: int, b: int): nat { if a < b then b - a else a - b }

  /** Slides the window no further than it takes to show `focus`. */
  function EnsureVisible(offset: int, focus: nat, total: nat): (r: nat)
    ensures r <= MaxOffset(total)
    ensures focus < total ==> r <= focus < r + VIEWPORT
    ensures 0 <= offset <= MaxOffset(total) && offset <= focus < offset + VIEWPORT ==> r == offset
    ensures focus < total ==> forall other :: 0 <= other <= MaxOffset(total) && other <= focus < other + VIEWPORT ==>
              Distance(offset, r) <= Distance(offset, other)
  {
    var next := if offset < 0 then 0 else if MaxOffset(total) < offset then MaxOffset(total) else offset;
    var shown := if focus < next then focus else if next + VIEWPORT <= focus then focus - VIEWPORT + 1 else next;
    if MaxOffset(total) < shown then MaxOffset(total) else shown
  }

  // ----- focusable rows -----

  ghost predicate AnyFocusable(items: seq<Item>) { exists k :: 0 <= k < |items| && !Unfocusable(items, k) }

  predicate Unfocusable(items: seq<Item>, k: int) { 0 <= k < |items| && !items[k].focusable }

  /** The nearest place at or after `k` that is not an unfocusable row. */
  function NextFrom(items: seq<Item>, k: nat): (r: nat)
    ensures k <= r && (k <= |items| ==> r <= |items|)
    ensures !Unfocusable(items, r) && forall j :: k <= j < r ==> Unfocusable(items, j)
    decreases |items| - k
  {
    if Unfocusable(items, k) then NextFrom(items, k + 1) else k
  }

  /** The nearest place at or before `k` that is not an unfocusable row, possibly -1. */
  function PreviousFrom(items: seq<Item>, k: int): (r: int)
    requires -1 <= k
    ensures -1 <= r <= k
    ensures !Unfocusable(items, r) && forall j :: r < j <= k ==> Unfocusable(items, j)
    decreases k + 1
  {
    if Unfocusable(items, k) then PreviousFrom(items, k - 1) else k
  }

  function FirstFocusable(items: seq<Item>): (k: nat)
    ensures if AnyFocusable(items) then k < |items| && items[k].focusable else k == 0
    ensures forall j :: 0 <= j < k ==> Unfocusable(items, j)
  {
    var k := NextFrom(items, 0);
    if k < |items| then k else 0
  }

  function LastFocusable(items: seq<Item>): (k: nat)
    ensures if AnyFocusable(items) then k < |items| && items[k].focusable else k == 0
    ensures AnyFocusable(items) ==> forall j :: k < j < |items| ==> Unfocusable(items, j)
  {
    var k := PreviousFrom(items, |items| - 1);
    if 0 <= k then k else 0
  }

  method FindLastFocusable(items: seq<Item>) returns (k: nat)
    ensures k == LastFocusable(items)
  {
    var i := |items| - 1;
    while 0 <= i
      invariant -1 <= i < |items|
      invariant PreviousFrom(items, |items| - 1) == PreviousFrom(items, i)
    {
      if items[i].focusable {
        return i;
      }
      i := i - 1;
    }
    return 0;
  }

  /** The first focusable row with a property, or the length of the list. */
  function FindFocusable(items: seq<Item>, wanted: Item -> bool): (k: nat)
    ensures k <= |items|
    ensures k < |items| ==> items[k].focusable && wanted(items[k])
    ensures forall j :: 0 <= j < k ==> !(items[j].focusable && wanted(items[j]))
  {
    if items == [] || (items[0].focusable && wanted(items[0])) then 0 else 1 + FindFocusable(items[1..], wanted)
  }

  // ----- what the list shows -----

  /** What stays of a list: no header of a group without rows. */
  function Staying(items: seq<Item>): Item -> bool {
    (item: Item) => !item.header || item.group == "" || exists x <- items :: !x.header && x.group == item.group
  }

  function PruneEmptyGroups(items: seq<Item>): seq<Item> { Kept(items, Staying(items)) }

  /** The rows to keep, and the headers that still head one of them. */
  ghost predicate KeptAt(pool: seq<Item>, keep: Item -> bool, i: nat) {
    && i < |pool| && keep(pool[i])
    && (pool[i].header && pool[i].group != "" ==>
         exists j :: 0 <= j < |pool| && keep(pool[j]) && !pool[j].header && pool[j].group == pool[i].group)
  }

  ghost function KeptIn(pool: seq<Item>, keep: Item -> bool): Item -> bool {
    (x: Item) => keep(x) && Staying(Kept(pool, keep))(x)
  }

  /** Exactly these are left, in order. */
  lemma PruningPicks(pool: seq<Item>, keep: Item -> bool) returns (at: seq<nat>)
    ensures Picks(pool, PruneEmptyGroups(Kept(pool, keep)), at)
    ensures forall i :: 0 <= i < |pool| ==> (i in at <==> KeptAt(pool, keep, i))
  {
    var kept := Kept(pool, keep);
    KeptTwice(pool, keep, Staying(kept), KeptIn(pool, keep));
    at := KeptPicks(pool, KeptIn(pool, keep));
    forall i | 0 <= i < |pool| ensures KeptIn(pool, keep)(pool[i]) <==> KeptAt(pool, keep, i) {
    }
  }

  function DefaultVisible(pool: seq<Item>): seq<Item> {
    if forall x <- pool :: !x.searchOnly then pool else PruneEmptyGroups(Kept(pool, (x: Item) => !x.searchOnly))
  }

  /** What is shown without a query: all of a pool in which every row may be shown; of any other the rows that may,
      and the headers that head one of them. In pool order, each as often as it is there. */
  lemma DefaultVisiblePicks(pool: seq<Item>) returns (at: seq<nat>)
    ensures Picks(pool, DefaultVisible(pool), at)
    ensures forall i :: 0 <= i < |pool| ==>
              (i in at <==> || (forall x <- pool :: !x.searchOnly)
                            || (!pool[i].searchOnly &&
                                (pool[i].header && pool[i].group != "" ==>
                                  exists j :: 0 <= j < |pool| && !pool[j].searchOnly && !pool[j].header
                                              && pool[j].group == pool[i].group)))
  {
    if forall x <- pool :: !x.searchOnly {
      at := seq(|pool|, k => k);
      assert forall i :: 0 <= i < |pool| ==> at[i] == i;
    } else {
      at := PruningPicks(pool, (x: Item) => !x.searchOnly);
    }
  }

  lemma DefaultVisibleIsFromThePool(pool: seq<Item>)
    ensures forall x <- DefaultVisible(pool) :: x in pool
  {
    var at := DefaultVisiblePicks(pool);
  }

  /** The list for a pool and a query. */
  ghost function Shown(pool: seq<Item>, query: string, model: bool): seq<Item> {
    if query == "" then DefaultVisible(pool)
    else if model then Headings.Filtered(pool, query)
    else Search.Found(pool, query)
  }

  // ----- operations -----

  ghost function Filtering(s: State, query: string): State {
    var items := Shown(s.pool, query, s.model);
    var focus := FirstFocusable(items);
    s.(query := query, items := items, focus := focus, scroll := EnsureVisible(0, focus, |items|), armed := None)
  }

  method ApplyFilter(s: State, query: string) returns (r: State)
    ensures r == Filtering(s, query)
  {
    var items;
    if query == "" {
      items := DefaultVisible(s.pool);
    } else if s.model {
      items := Headings.FilterModels(s.pool, query);
    } else {
      var matched := Search.FindMatched(s.pool, query);
      items := Search.RestoreGroupHeaders(s.pool, matched);
    }
    var focus := FirstFocusable(items);
    r := s.(query := query, items := items, focus := focus, scroll := EnsureVisible(0, focus, |items|), armed := None);
  }

  function Started(items: seq<Item>, pool: seq<Item>, circular: bool, model: bool): State {
    var visible := DefaultVisible(items);
    var focus := FirstFocusable(visible);
    State(visible, pool, focus, EnsureVisible(0, focus, |visible|), "", model, circular, false, None)
  }

  /** A selector opened on `items`, possibly with a query and a wider pool; the presentation is chosen afterwards. */
  ghost function Created(items: seq<Item>, wider: Option<seq<Item>>, query: string, model: bool,
                         circular: bool): State {
    var pool := if wider.Some? then wider.value else items;
    var plain := Started(items, pool, circular, false);
    (if query == "" then plain else Filtering(plain, query)).(model := model)
  }

  predicate OnFocusable(s: State) { s.focus < |s.items| && s.items[s.focus].focusable }

  function FocusingList(s: State): State {
    var focus := if OnFocusable(s) then s.focus else FirstFocusable(s.items);
    s.(listFocused := true, focus := focus, scroll := EnsureVisible(s.scroll, focus, |s.items|))
  }

  function FocusingOn(s: State, wanted: Item -> bool): State {
    var k := FindFocusable(s.items, wanted);
    if k == |s.items| then s else s.(focus := k, scroll := EnsureVisible(s.scroll, k, |s.items|))
  }

  predicate FocusableBefore(items: seq<Item>, k: nat) {
    exists j :: 0 <= j < k && j < |items| && !Unfocusable(items, j)
  }

  function MovedUp(s: State): State {
    var n := |s.items|;
    var next := PreviousFrom(s.items, s.focus - 1);
    if 0 <= next then
      var target := if FocusableBefore(s.items, next) then next else 0;
      s.(focus := next, scroll := EnsureVisible(s.scroll, target, n))
    else if !s.circular || n == 0 || Unfocusable(s.items, LastFocusable(s.items)) then s
    else
      var last := LastFocusable(s.items);
      s.(focus := last, scroll := EnsureVisible(MaxOffset(n), last, n))
  }

  method SelectorUp(s: State) returns (r: State)
    ensures r == MovedUp(s)
  {
    var next := s.focus - 1;
    while 0 <= next && Unfocusable(s.items, next)
      invariant -1 <= next < s.focus
      invariant PreviousFrom(s.items, s.focus - 1) == PreviousFrom(s.items, next)
    {
      next := next - 1;
    }
    if next < 0 {
      if !s.circular || s.items == [] {
        return s;
      }
      var last := FindLastFocusable(s.items);
      if Unfocusable(s.items, last) {
        return s;
      }
      return s.(focus := last, scroll := EnsureVisible(MaxOffset(|s.items|), last, |s.items|));
    }
    var target := if FocusableBefore(s.items, next) then next else 0;
    return s.(focus := next, scroll := EnsureVisible(s.scroll, target, |s.items|));
  }

  function MovedDown(s: State): State {
    var n := |s.items|;
    var next := NextFrom(s.items, s.focus + 1);
    if next < n then s.(focus := next, scroll := EnsureVisible(s.scroll, next, n))
    else if !s.circular || n == 0 || Unfocusable(s.items, FirstFocusable(s.items)) then s
    else
      var first := FirstFocusable(s.items);
      var target := if FocusableBefore(s.items, first) then first else 0;
      s.(focus := first, scroll := EnsureVisible(0, target, n))
  }

  method SelectorDown(s: State) returns (r: State)
    ensures r == MovedDown(s)
  {
    var next := s.focus + 1;
    while next < |s.items| && Unfocusable(s.items, next)
      invariant s.focus < next && NextFrom(s.items, s.focus + 1) == NextFrom(s.items, next)
    {
      next := next + 1;
    }
    if |s.items| <= next {
      if !s.circular || s.items == [] {
        return s;
      }
      var first := FirstFocusable(s.items);
      if Unfocusable(s.items, first) {
        return s;
      }
      var target := if FocusableBefore(s.items, first) then first else 0;
      return s.(focus := first, scroll := EnsureVisible(0, target, |s.items|));
    }
    return s.(focus := next, scroll := EnsureVisible(s.scroll, next, |s.items|));
  }

  ghost function Typed(s: State, text: string): State { Filtering(s.(listFocused := false), s.query + text) }

  ghost function Erased(s: State): State {
    if s.query == "" then s else Filtering(s.(listFocused := false), s.query[..|s.query| - 1])
  }

  ghost function Cleared(s: State): State { if s.query == "" then s else Filtering(s, "") }

  /** The same row in another list: by id where it has one, by title otherwise. */
  predicate SameRow(a: Item, b: Item) {
    if a.id.Some? && a.id.value != "" then b.id == a.id else b.title == a.title
  }

  ghost function Repooled(s: State, pool: seq<Item>): State {
    var updated := s.(pool := pool, armed := None);
    if s.query != "" then Filtering(updated, s.query)
    else
      var visible := DefaultVisible(pool);
      var focus := FirstFocusable(visible);
      updated.(items := visible, focus := focus, scroll := EnsureVisible(s.scroll, focus, |visible|))
  }

  /** A fresh pool; the focused row keeps the focus when the new list still offers it. */
  ghost function Refreshed(s: State, pool: seq<Item>): State {
    if |s.items| <= s.focus || s.items[s.focus].header then Repooled(s, pool)
    else FocusingOn(Repooled(s, pool), (item: Item) => SameRow(s.items[s.focus], item))
  }

  function WithoutKey(pool: seq<Item>, key: string): seq<Item> {
    PruneEmptyGroups(Kept(pool, (x: Item) => Search.Key(x) != key))
  }

  /** What a removal leaves of the pool: every row with another key, and every header with another key unless
      its group has no such row. In pool order, each as often as it was there. */
  lemma WithoutKeyPicks(pool: seq<Item>, key: string) returns (at: seq<nat>)
    ensures Picks(pool, WithoutKey(pool, key), at)
    ensures forall i :: 0 <= i < |pool| ==>
              (i in at <==> && Search.Key(pool[i]) != key
                            && (pool[i].header && pool[i].group != "" ==>
                                 exists j :: 0 <= j < |pool| && Search.Key(pool[j]) != key && !pool[j].header
                                             && pool[j].group == pool[i].group))
  {
    at := PruningPicks(pool, (x: Item) => Search.Key(x) != key);
  }

  lemma WithoutKeyIsFromThePool(pool: seq<Item>, key: string)
    ensures forall x <- WithoutKey(pool, key) :: x in pool && Search.Key(x) != key
  {
    var at := WithoutKeyPicks(pool, key);
    forall x | x in WithoutKey(pool, key) ensures x in pool && Search.Key(x) != key {
      var k :| 0 <= k < |at| && WithoutKey(pool, key)[k] == x;
      assert at[k] in at && x == pool[at[k]];
    }
  }

  function FocusAfterRemoval(items: seq<Item>, index: nat): nat {
    var from := if items == [] then 0 else if |items| <= index then |items| - 1 else index;
    var next := NextFrom(items, from);
    if |items| <= next then LastFocusable(items) else next
  }

  ghost function Removed(s: State, index: nat): State {
    if |s.items| <= index || s.items[index].header then s
    else
      var pool := WithoutKey(s.pool, Search.Key(s.items[index]));
      if s.query != "" then Filtering(s.(pool := pool), s.query)
      else
        var items := DefaultVisible(pool);
        var focus := FocusAfterRemoval(items, index);
        s.(items := items, pool := pool, focus := focus, scroll := EnsureVisible(s.scroll, focus, |items|),
           armed := None)
  }

  method SelectorRemoveItem(s: State, index: nat) returns (r: State)
    ensures r == Removed(s, index)
  {
    if |s.items| <= index || s.items[index].header {
      return s;
    }
    var pool := WithoutKey(s.pool, Search.Key(s.items[index]));
    if s.query != "" {
      r := ApplyFilter(s.(pool := pool, armed := None), s.query);
      return;
    }
    var items := DefaultVisible(pool);
    var focus := if items == [] then 0 else if |items| <= index then |items| - 1 else index;
    ghost var from := focus;
    while focus < |items| && Unfocusable(items, focus)
      invariant NextFrom(items, from) == NextFrom(items, focus)
    {
      focus := focus + 1;
    }
    if |items| <= focus {
      focus := FindLastFocusable(items);
    }
    return s.(items := items, pool := pool, focus := focus, scroll := EnsureVisible(s.scroll, focus, |items|),
              armed := None);
  }
}
