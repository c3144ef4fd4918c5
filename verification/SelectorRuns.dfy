/**
 What the selector keeps over every sequence of typing, navigation, removal and refresh.
 */
module SelectorRuns {
  import opened Options
  import opened Filter
  import opened Selector
  import opened Sublists
  import Headings
  import Search

  datatype Event =
    | Type(text: string) | Backspace | ClearQuery
    | Up | Down | FocusList | FocusOn(wanted: Item -> bool)
    | Refresh(fromPool: seq<Item>) | Remove(index: nat)

  ghost function Next(s: State, e: Event): State {
    match e
    case Type(text) => Typed(s, text)
    case Backspace => Erased(s)
    case ClearQuery => Cleared(s)
    case Up => MovedUp(s)
    case Down => MovedDown(s)
    case FocusList => FocusingList(s)
    case FocusOn(wanted) => FocusingOn(s, wanted)
    case Refresh(pool) => Refreshed(s, pool)
    case Remove(index) => Removed(s, index)
  }

  ghost function Run(s: State, events: seq<Event>): State {
    if |events| == 0 then s else Next(Run(s, events[..|events| - 1]), events[|events| - 1])
  }

  // ----- focus and window -----

  predicate InWindow(s: State) { s.scroll <= s.focus < s.scroll + VIEWPORT }

  /** The unfocusable rows at the head of the list, such as a group header, fit in the window with the first row. */
  predicate LeadFits(items: seq<Item>) { NextFrom(items, 0) < VIEWPORT }

  ghost predicate Sound(s: State) {
    && s.focus <= |s.items| && (s.focus == |s.items| ==> s.items == [])
    && (AnyFocusable(s.items) ==> OnFocusable(s))
    && s.scroll <= MaxOffset(|s.items|)
    && (LeadFits(s.items) || !AnyFocusable(s.items) ==> InWindow(s))
  }

  lemma FilteringIsSound(s: State, query: string)
    ensures Sound(Filtering(s, query)) && InWindow(Filtering(s, query))
  {
  }

  lemma CreatedIsSound(items: seq<Item>, wider: Option<seq<Item>>, query: string, model: bool, circular: bool)
    ensures Sound(Created(items, wider, query, model, circular))
  {
    var plain := Started(items, if wider.Some? then wider.value else items, circular, false);
    FilteringIsSound(plain, query);
  }

  lemma UpIsSound(s: State)
    requires Sound(s)
    ensures Sound(MovedUp(s))
  {
    var next := PreviousFrom(s.items, s.focus - 1);
    if 0 <= next && !FocusableBefore(s.items, next) {
      assert NextFrom(s.items, 0) == next;
    }
  }

  lemma DownIsSound(s: State)
    requires Sound(s)
    ensures Sound(MovedDown(s))
  {
    var first := FirstFocusable(s.items);
    assert !FocusableBefore(s.items, first);
    if !Unfocusable(s.items, first) && s.items != [] {
      assert NextFrom(s.items, 0) == first;
    }
  }

  lemma RemovalIsSound(s: State, index: nat)
    requires Sound(s)
    ensures Sound(Removed(s, index))
  {
    if index < |s.items| && !s.items[index].header && s.query == "" {
      var items := Removed(s, index).items;
      AfterRemovalIsFocusable(items, index);
    }
  }

  lemma AfterRemovalIsFocusable(items: seq<Item>, index: nat)
    ensures var k := FocusAfterRemoval(items, index);
            k <= |items| && (k == |items| ==> items == [])
                && (AnyFocusable(items) ==> k < |items| && items[k].focusable)
  {
  }

  lemma RefreshIsSound(s: State, pool: seq<Item>)
    requires Sound(s)
    ensures Sound(Refreshed(s, pool))
  {
    assert Sound(Repooled(s, pool));
  }

  lemma NextIsSound(s: State, e: Event)
    requires Sound(s)
    ensures Sound(Next(s, e))
  {
    match e
    case Type(text) => FilteringIsSound(s.(listFocused := false), s.query + text);
    case Backspace =>
      if s.query != "" {
        FilteringIsSound(s.(listFocused := false), s.query[..|s.query| - 1]);
      }
    case ClearQuery => FilteringIsSound(s, "");
    case Up => UpIsSound(s);
    case Down => DownIsSound(s);
    case Refresh(pool) => RefreshIsSound(s, pool);
    case Remove(index) => RemovalIsSound(s, index);
    case _ =>
  }

  /** After any run, the focus is on a focusable row whenever there is one, and the window shows it. */
  lemma {:induction false} RunIsSound(s: State, events: seq<Event>)
    requires Sound(s)
    ensures Sound(Run(s, events))
    decreases |events|
  {
    if |events| != 0 {
      RunIsSound(s, events[..|events| - 1]);
      NextIsSound(Run(s, events[..|events| - 1]), events[|events| - 1]);
    }
  }

  /** The two moves that can hide the focus: up to the first focusable row, and down going round to it,
      where the rows leading the list fill the window. */
  predicate ReachesTheTopUnseen(s: State, e: Event) {
    && !LeadFits(s.items) && NextFrom(s.items, 0) < |s.items|
    && match e
       case Up => PreviousFrom(s.items, s.focus - 1) == NextFrom(s.items, 0)
       case Down => s.circular && |s.items| <= NextFrom(s.items, s.focus + 1)
       case _ => false
  }

  lemma UpHidesFocusExactly(s: State)
    requires Sound(s) && InWindow(s)
    ensures !InWindow(MovedUp(s)) <==> ReachesTheTopUnseen(s, Up)
  {
    var next := PreviousFrom(s.items, s.focus - 1);
    if 0 <= next {
      if FocusableBefore(s.items, next) {
        assert NextFrom(s.items, 0) < next;
      } else {
        assert NextFrom(s.items, 0) == next;
      }
    }
  }

  lemma DownHidesFocusExactly(s: State)
    requires Sound(s) && InWindow(s)
    ensures !InWindow(MovedDown(s)) <==> ReachesTheTopUnseen(s, Down)
  {
    var first := FirstFocusable(s.items);
    assert !FocusableBefore(s.items, first);
    if AnyFocusable(s.items) {
      assert NextFrom(s.items, 0) == first;
    }
  }

  /** A step hides a focus that was shown if and only if it is one of those two moves. */
  lemma FocusIsHiddenExactlyUnderATallLead(s: State, e: Event)
    requires Sound(s) && InWindow(s)
    ensures !InWindow(Next(s, e)) <==> ReachesTheTopUnseen(s, e)
  {
    match e
    case Type(text) => FilteringIsSound(s.(listFocused := false), s.query + text);
    case Backspace =>
      if s.query != "" {
        FilteringIsSound(s.(listFocused := false), s.query[..|s.query| - 1]);
      }
    case ClearQuery => FilteringIsSound(s, "");
    case Up => UpHidesFocusExactly(s);
    case Down => DownHidesFocusExactly(s);
    case FocusList =>
    case FocusOn(_) =>
    case Refresh(pool) => RefreshShowsFocus(s, pool);
    case Remove(index) => RemovalShowsFocus(s, index);
  }

  lemma RefreshShowsFocus(s: State, pool: seq<Item>)
    ensures InWindow(Refreshed(s, pool))
  {
    FilteringIsSound(s.(pool := pool, armed := None), s.query);
    assert InWindow(Repooled(s, pool));
  }

  lemma RemovalShowsFocus(s: State, index: nat)
    requires InWindow(s)
    ensures InWindow(Removed(s, index))
  {
    if index < |s.items| && !s.items[index].header {
      var pool := WithoutKey(s.pool, Search.Key(s.items[index]));
      if s.query == "" {
        AfterRemovalIsFocusable(DefaultVisible(pool), index);
      } else {
        FilteringIsSound(s.(pool := pool), s.query);
      }
    }
  }

  // ----- navigation -----

  /** Up reaches the nearest focusable row above, or, going round, the last one. */
  lemma UpReachesTheNearest(s: State, k: nat)
    requires Sound(s) && k < |s.items| && s.items[k].focusable
    ensures k < s.focus ==> k <= MovedUp(s).focus < s.focus
    ensures s.circular && (forall j :: 0 <= j < s.focus ==> Unfocusable(s.items, j)) ==> k <= MovedUp(s).focus
    ensures MovedUp(s).focus == s.focus || OnFocusable(MovedUp(s))
  {
    var next := PreviousFrom(s.items, s.focus - 1);
    assert !Unfocusable(s.items, k);
  }

  lemma DownReachesTheNearest(s: State, k: nat)
    requires Sound(s) && k < |s.items| && s.items[k].focusable
    ensures s.focus < k ==> s.focus < MovedDown(s).focus <= k
    ensures s.circular && (forall j :: s.focus < j < |s.items| ==> Unfocusable(s.items, j)) ==> MovedDown(s).focus <= k
    ensures MovedDown(s).focus == s.focus || OnFocusable(MovedDown(s))
  {
    var next := NextFrom(s.items, s.focus + 1);
    assert !Unfocusable(s.items, k);
  }

  /** Down undoes Up and Up undoes Down wherever the move went somewhere, going round included. */
  lemma UpAndDownAreInverse(s: State)
    requires Sound(s) && AnyFocusable(s.items)
    ensures MovedUp(s).focus != s.focus || s.circular ==> MovedDown(MovedUp(s)).focus == s.focus
    ensures MovedDown(s).focus != s.focus || s.circular ==> MovedUp(MovedDown(s)).focus == s.focus
  {
    if MovedUp(s).focus != s.focus || s.circular {
      DownUndoesUp(s);
    }
    if MovedDown(s).focus != s.focus || s.circular {
      UpUndoesDown(s);
    }
  }

  lemma DownUndoesUp(s: State)
    requires Sound(s) && AnyFocusable(s.items) && (MovedUp(s).focus != s.focus || s.circular)
    ensures MovedDown(MovedUp(s)).focus == s.focus
  {
    var up := MovedUp(s).focus;
    assert !Unfocusable(s.items, s.focus) && !Unfocusable(s.items, up);
    var back := NextFrom(s.items, up + 1);
    if up < s.focus {
      assert back == s.focus;
    } else {
      assert forall j :: 0 <= j < s.focus ==> Unfocusable(s.items, j);
      assert up == LastFocusable(s.items);
      assert back == |s.items|;
      assert FirstFocusable(s.items) == s.focus;
    }
  }

  lemma UpUndoesDown(s: State)
    requires Sound(s) && AnyFocusable(s.items) && (MovedDown(s).focus != s.focus || s.circular)
    ensures MovedUp(MovedDown(s)).focus == s.focus
  {
    var down: int := MovedDown(s).focus;
    assert !Unfocusable(s.items, s.focus) && !Unfocusable(s.items, down);
    var back := PreviousFrom(s.items, down - 1);
    if s.focus < down {
      assert back == s.focus;
    } else {
      assert forall j :: s.focus < j < |s.items| ==> Unfocusable(s.items, j);
      assert down == FirstFocusable(s.items);
      assert back == -1;
      assert LastFocusable(s.items) == s.focus;
    }
  }

  // ----- the list and its pool -----

  ghost predicate ShowsItsPool(s: State) { s.items == Shown(s.pool, s.query, s.model) }

  lemma CreatedShowsItsPool(items: seq<Item>, query: string, model: bool, circular: bool)
    requires query == "" || !model
    ensures ShowsItsPool(Created(items, None, query, model, circular))
  {
  }

  lemma FilteringShowsItsPool(s: State, query: string)
    ensures ShowsItsPool(Filtering(s, query))
  {
  }

  lemma RefreshShowsItsPool(s: State, pool: seq<Item>)
    ensures ShowsItsPool(Refreshed(s, pool))
  {
    FilteringShowsItsPool(s.(pool := pool, armed := None), s.query);
    assert ShowsItsPool(Repooled(s, pool));
  }

  lemma RemovalShowsItsPool(s: State, index: nat)
    requires ShowsItsPool(s)
    ensures ShowsItsPool(Removed(s, index))
  {
  }

  lemma MovesKeepTheList(s: State)
    ensures MovedUp(s) == s.(focus := MovedUp(s).focus, scroll := MovedUp(s).scroll)
    ensures MovedDown(s) == s.(focus := MovedDown(s).focus, scroll := MovedDown(s).scroll)
  {
  }

  lemma NextShowsItsPool(s: State, e: Event)
    requires ShowsItsPool(s)
    ensures ShowsItsPool(Next(s, e))
  {
    match e
    case Type(text) => FilteringShowsItsPool(s.(listFocused := false), s.query + text);
    case Backspace =>
      if s.query != "" {
        FilteringShowsItsPool(s.(listFocused := false), s.query[..|s.query| - 1]);
      }
    case ClearQuery => FilteringShowsItsPool(s, "");
    case Up => MovesKeepTheList(s);
    case Down => MovesKeepTheList(s);
    case Refresh(pool) => RefreshShowsItsPool(s, pool);
    case Remove(index) => RemovalShowsItsPool(s, index);
    case FocusList =>
    case FocusOn(wanted) =>
  }

  /** Over every run the list is what the filter gives for the current pool and query. */
  lemma {:induction false} RunShowsItsPool(s: State, events: seq<Event>)
    requires ShowsItsPool(s)
    ensures ShowsItsPool(Run(s, events))
    decreases |events|
  {
    if |events| != 0 {
      RunShowsItsPool(s, events[..|events| - 1]);
      NextShowsItsPool(Run(s, events[..|events| - 1]), events[|events| - 1]);
    }
  }

  /** Over every run: without a query the list is the rows of the pool that may be shown, with their headers. */
  lemma PlainListIsExact(s: State, events: seq<Event>) returns (at: seq<nat>)
    requires ShowsItsPool(s) && Run(s, events).query == ""
    ensures var pool := Run(s, events).pool;
            && Picks(pool, Run(s, events).items, at)
            && forall i :: 0 <= i < |pool| ==>
                 (i in at <==> || (forall x <- pool :: !x.searchOnly)
                               || (!pool[i].searchOnly &&
                                   (pool[i].header && pool[i].group != "" ==>
                                     exists j :: 0 <= j < |pool| && !pool[j].searchOnly && !pool[j].header
                                                 && pool[j].group == pool[i].group)))
  {
    RunShowsItsPool(s, events);
    at := DefaultVisiblePicks(Run(s, events).pool);
  }

  /** What the events do to the query. */
  function Edited(query: string, events: seq<Event>): string {
    if events == [] then query
    else
      var before := Edited(query, events[..|events| - 1]);
      match events[|events| - 1]
      case Type(text) => before + text
      case Backspace => if before == "" then "" else before[..|before| - 1]
      case ClearQuery => ""
      case _ => before
  }

  lemma FilteringEdits(s: State, query: string)
    ensures Filtering(s, query).query == query && Filtering(s, query).pool == s.pool
  {
  }

  lemma RefreshEdits(s: State, pool: seq<Item>)
    ensures Refreshed(s, pool).query == s.query && Refreshed(s, pool).pool == pool
  {
    FilteringEdits(s.(pool := pool, armed := None), s.query);
    assert Repooled(s, pool).query == s.query && Repooled(s, pool).pool == pool;
  }

  lemma RemovalEdits(s: State, index: nat)
    requires index < |s.items| && !s.items[index].header
    ensures Removed(s, index).query == s.query
    ensures Removed(s, index).pool == WithoutKey(s.pool, Search.Key(s.items[index]))
  {
    FilteringEdits(s.(pool := WithoutKey(s.pool, Search.Key(s.items[index]))), s.query);
  }

  lemma StepEdits(s: State, e: Event)
    ensures Next(s, e).query == match e
                                case Type(text) => s.query + text
                                case Backspace => if s.query == "" then "" else s.query[..|s.query| - 1]
                                case ClearQuery => ""
                                case _ => s.query
    ensures Next(s, e).pool ==
              if e.Refresh? then e.fromPool
              else if e.Remove? && e.index < |s.items| && !s.items[e.index].header
              then WithoutKey(s.pool, Search.Key(s.items[e.index])) else s.pool
  {
    match e
    case Type(text) => FilteringEdits(s.(listFocused := false), s.query + text);
    case Backspace =>
      if s.query != "" {
        FilteringEdits(s.(listFocused := false), s.query[..|s.query| - 1]);
      }
    case ClearQuery => FilteringEdits(s, "");
    case Refresh(pool) => RefreshEdits(s, pool);
    case Remove(index) =>
      if index < |s.items| && !s.items[index].header {
        RemovalEdits(s, index);
      }
    case _ => MovesKeepTheList(s);
  }

  /** Over every run the query is what was typed, and the list the one for it. */
  lemma {:induction false} QueryIsWhatWasTyped(s: State, events: seq<Event>)
    ensures Run(s, events).query == Edited(s.query, events)
    decreases |events|
  {
    if events != [] {
      QueryIsWhatWasTyped(s, events[..|events| - 1]);
      StepEdits(Run(s, events[..|events| - 1]), events[|events| - 1]);
    }
  }

  /** A removal takes the rows under the focused row's key, and headers left without rows, out of the pool:
      nothing else, and nothing twice. */
  lemma RemovalTakesOneKey(s: State, index: nat) returns (at: seq<nat>)
    requires index < |s.items| && !s.items[index].header
    ensures var pool, key := s.pool, Search.Key(s.items[index]);
            && Picks(pool, Removed(s, index).pool, at)
            && forall i :: 0 <= i < |pool| ==>
                 (i in at <==> && Search.Key(pool[i]) != key
                               && (pool[i].header && pool[i].group != "" ==>
                                    exists j :: 0 <= j < |pool| && Search.Key(pool[j]) != key && !pool[j].header
                                                && pool[j].group == pool[i].group))
  {
    at := WithoutKeyPicks(s.pool, Search.Key(s.items[index]));
  }

  /** Without a query the focus then goes to the first focusable row from the removed row's place on, or else
      to the last focusable one. */
  lemma RemovalFocusesTheNext(s: State, index: nat, k: nat)
    requires index < |s.items| && !s.items[index].header && s.query == ""
    requires var items := Removed(s, index).items; k < |items| && items[k].focusable
    ensures var r := Removed(s, index);
            && OnFocusable(r)
            && (Min(index, |r.items| - 1) <= k ==> Min(index, |r.items| - 1) <= r.focus <= k)
            && (r.focus < Min(index, |r.items| - 1) ==> k <= r.focus)
  {
    var items := Removed(s, index).items;
    assert !Unfocusable(items, k);
  }

  function Min(a: int, b: int): int { if a < b then a else b }

  lemma {:induction false} FlatComesFromThePool(pool: seq<Item>, matched: seq<Item>)
    ensures forall x <- Search.Flat(pool, Search.Showing(matched)) :: x in pool || x in matched
    decreases |pool|
  {
    if pool != [] {
      FlatComesFromThePool(pool[..|pool| - 1], matched);
    }
  }

  lemma ShownComesFromThePool(pool: seq<Item>, query: string, model: bool, x: Item)
    requires x in Shown(pool, query, model)
    ensures x in pool
  {
    if query == "" {
      DefaultVisibleIsFromThePool(pool);
    } else if model {
      var list := Headings.Filtered(pool, query);
      if x.header {
        Headings.FilteredIsGrouped(pool, query);
      } else {
        Headings.FilteredRowsAreTheMatches(pool, query, x);
        assert x in multiset(list);
        assert x in multiset(pool);
      }
    } else {
      var matched := Search.Matched(pool, query);
      FlatComesFromThePool(pool, matched);
      Search.HitIsMatched(pool, query, x);
    }
  }

  ghost predicate Refreshless(events: seq<Event>) { forall k :: 0 <= k < |events| ==> !events[k].Refresh? }

  lemma StepOnlyShrinks(s: State, e: Event)
    requires !e.Refresh?
    ensures forall x <- Next(s, e).pool :: x in s.pool
  {
    MovesKeepTheList(s);
    if e.Remove? && e.index < |s.items| {
      WithoutKeyIsFromThePool(s.pool, Search.Key(s.items[e.index]));
    }
  }

  lemma {:induction false} PoolOnlyShrinks(s: State, events: seq<Event>)
    requires Refreshless(events)
    ensures forall x <- Run(s, events).pool :: x in s.pool
    decreases |events|
  {
    if |events| != 0 {
      var before := Run(s, events[..|events| - 1]);
      PoolOnlyShrinks(s, events[..|events| - 1]);
      StepOnlyShrinks(before, events[|events| - 1]);
    }
  }

  /** A removed row is not listed again before the pool is refreshed, whatever is typed meanwhile. */
  lemma RemovedRowStaysAway(s: State, index: nat, events: seq<Event>, x: Item)
    requires ShowsItsPool(s) && index < |s.items| && !s.items[index].header && Refreshless(events)
    requires x in Run(Removed(s, index), events).items
    ensures Search.Key(x) != Search.Key(s.items[index])
  {
    var removed := Removed(s, index);
    WithoutKeyIsFromThePool(s.pool, Search.Key(s.items[index]));
    NextShowsItsPool(s, Remove(index));
    RunShowsItsPool(removed, events);
    PoolOnlyShrinks(removed, events);
    var end := Run(removed, events);
    ShownComesFromThePool(end.pool, end.query, end.model, x);
  }

  /** A refresh keeps the focus on the row it was on whenever the new list offers that row. */
  lemma RefreshKeepsTheRow(s: State, pool: seq<Item>, k: nat)
    requires s.focus < |s.items| && !s.items[s.focus].header
    requires k < |Shown(pool, s.query, s.model)| && Shown(pool, s.query, s.model)[k].focusable
    requires SameRow(s.items[s.focus], Shown(pool, s.query, s.model)[k])
    ensures var r := Refreshed(s, pool); OnFocusable(r) && SameRow(s.items[s.focus], r.items[r.focus]) && r.focus <= k
  {
  }

  lemma FilteringDisarms(s: State, query: string)
    ensures Filtering(s, query).armed.None?
  {
  }

  lemma RefreshDisarms(s: State, pool: seq<Item>)
    ensures Refreshed(s, pool).armed.None?
  {
    FilteringDisarms(s.(pool := pool, armed := None), s.query);
    assert Repooled(s, pool).armed.None?;
  }

  /** An armed deletion outlives no change of the list. */
  lemma ArmedDeletionKnowsItsList(s: State, e: Event)
    ensures Next(s, e).armed.None? || (Next(s, e).items == s.items && Next(s, e).armed == s.armed)
  {
    match e
    case Type(text) => FilteringDisarms(s.(listFocused := false), s.query + text);
    case Backspace =>
      if s.query != "" {
        FilteringDisarms(s.(listFocused := false), s.query[..|s.query| - 1]);
      }
    case ClearQuery => FilteringDisarms(s, "");
    case Up => MovesKeepTheList(s);
    case Down => MovesKeepTheList(s);
    case Refresh(pool) => RefreshDisarms(s, pool);
    case _ =>
  }
}
