/**
 Group headers in the selector's filtered model list.
 */
module Headings {
  import opened Options
  import opened Filter

  /** The header configured for a group: the last one of the pool that names it. */
  function HeaderFor(pool: seq<Item>, group: string): (h: Option<Item>)
    ensures h.Some? ==> h.value.header && h.value.group == group && h.value in pool
    ensures h.None? <==> forall k :: 0 <= k < |pool| ==> !(pool[k].header && pool[k].group == group)
  {
    if pool == [] then None
    else if pool[|pool| - 1].header && pool[|pool| - 1].group == group then Some(pool[|pool| - 1])
    else HeaderFor(pool[..|pool| - 1], group)
  }

  lemma {:induction false} HeaderIsTheLast(pool: seq<Item>, group: string) returns (at: nat)
    requires HeaderFor(pool, group).Some?
    ensures at < |pool| && HeaderFor(pool, group) == Some(pool[at])
    ensures forall k :: at < k < |pool| ==> !(pool[k].header && pool[k].group == group)
  {
    at := |pool| - 1;
    if !(pool[at].header && pool[at].group == group) {
      at := HeaderIsTheLast(pool[..|pool| - 1], group);
    }
  }

  function OpensGroup(matched: seq<Item>, k: nat): bool
    requires k < |matched|
  {
    matched[k].group != "" && LastGroup(matched, k) != matched[k].group
  }

  /** The last group named before position `k`. */
  function LastGroup(matched: seq<Item>, k: nat): string
    requires k <= |matched|
  {
    if k == 0 then "" else if matched[k - 1].group != "" then matched[k - 1].group else LastGroup(matched, k - 1)
  }

  function HeaderBefore(pool: seq<Item>, matched: seq<Item>, k: nat): seq<Item>
    requires k < |matched|
  {
    var header := HeaderFor(pool, matched[k].group);
    if OpensGroup(matched, k) && header.Some? then [header.value] else []
  }

  /** What goes before each row: its group's header or nothing. */
  function Headers(pool: seq<Item>, matched: seq<Item>): (headers: seq<seq<Item>>)
    ensures |headers| == |matched|
    ensures forall k :: 0 <= k < |headers| ==> headers[k] == HeaderBefore(pool, matched, k)
  {
    seq(|matched|, k requires 0 <= k < |matched| => HeaderBefore(pool, matched, k))
  }

  /** The first `n` rows, each after what goes before it. */
  function Woven(headers: seq<seq<Item>>, rows: seq<Item>, n: nat): seq<Item>
    requires n <= |headers| == |rows|
  {
    if n == 0 then [] else Woven(headers, rows, n - 1) + headers[n - 1] + [rows[n - 1]]
  }

  function WithHeaders(pool: seq<Item>, matched: seq<Item>): seq<Item> {
    Woven(Headers(pool, matched), matched, |matched|)
  }

  method InsertGroupHeaders(pool: seq<Item>, matched: seq<Item>) returns (withHeaders: seq<Item>)
    ensures withHeaders == WithHeaders(pool, matched)
  {
    ghost var headers := Headers(pool, matched);
    if forall k :: 0 <= k < |matched| ==> matched[k].group == "" {
      NothingWoven(headers, matched, |matched|);
      return matched;
    }
    withHeaders := [];
    var current := "";
    for i := 0 to |matched|
      invariant withHeaders == Woven(headers, matched, i) && current == LastGroup(matched, i)
    {
      var item := matched[i];
      ghost var before := withHeaders;
      if item.group != "" && item.group != current {
        current := item.group;
        var header := HeaderFor(pool, item.group);
        if header.Some? {
          withHeaders := withHeaders + [header.value];
        }
      }
      assert withHeaders == before + headers[i];
      withHeaders := withHeaders + [item];
    }
  }

  lemma TakeOneMore(rows: seq<Item>, n: nat)
    requires 0 < n <= |rows|
    ensures rows[..n] == rows[..n - 1] + [rows[n - 1]]
  {
  }

  lemma {:induction false} NothingWoven(headers: seq<seq<Item>>, rows: seq<Item>, n: nat)
    requires n <= |headers| == |rows| && forall k :: 0 <= k < |rows| ==> headers[k] == []
    ensures Woven(headers, rows, n) == rows[..n]
  {
    if n != 0 {
      NothingWoven(headers, rows, n - 1);
      TakeOneMore(rows, n);
    }
  }

  function Filtered(pool: seq<Item>, query: string): seq<Item> { WithHeaders(pool, Ranked(pool, query)) }

  method FilterModels(pool: seq<Item>, query: string) returns (filtered: seq<Item>)
    ensures filtered == Filtered(pool, query)
  {
    var rows := Rows(pool);
    var entries := [];
    for i := 0 to |rows|
      invariant entries == Entries(query, rows[..i])
    {
      EntriesUpTo(query, rows, i);
      var score := ModelFuzzyScore(query, rows[i]);
      if score.Some? {
        entries := entries + [Entry(rows[i], i, score.value)];
      }
    }
    assert rows[..|rows|] == rows;
    filtered := InsertGroupHeaders(pool, Items(Sort(entries, Order(pool))));
  }

  // ----- the rows of the result -----

  ghost predicate OnlyHeaders(headers: seq<seq<Item>>) {
    forall k :: 0 <= k < |headers| ==> |headers[k]| <= 1 && forall x <- headers[k] :: x.header
  }

  lemma RowsWithOneMore(before: seq<Item>, header: seq<Item>, item: Item)
    requires |header| <= 1 && (forall x <- header :: x.header) && !item.header
    ensures Rows(before + header + [item]) == Rows(before) + [item]
  {
    RowsOfOneMore(before + header, item);
    if header == [] {
      assert before + header == before;
    } else {
      RowsOfOneMore(before, header[0]);
      assert header == [header[0]];
    }
  }

  lemma RowsOfOneMore(items: seq<Item>, item: Item)
    ensures Rows(items + [item]) == Rows(items) + if item.header then [] else [item]
  {
    assert (items + [item])[..|items|] == items;
  }

  lemma {:induction false} RowsOfWoven(headers: seq<seq<Item>>, rows: seq<Item>, n: nat)
    requires n <= |headers| == |rows| && OnlyHeaders(headers) && forall k :: 0 <= k < |rows| ==> !rows[k].header
    ensures Rows(Woven(headers, rows, n)) == rows[..n]
  {
    if n != 0 {
      RowsOfWoven(headers, rows, n - 1);
      var before, header, item := Woven(headers, rows, n - 1), headers[n - 1], rows[n - 1];
      RowsWithOneMore(before, header, item);
      TakeOneMore(rows, n);
    }
  }

  /** The rows of the filtered list are the ranked matches, in order. */
  lemma RowsOfFiltered(pool: seq<Item>, query: string)
    ensures Rows(Filtered(pool, query)) == Ranked(pool, query)
  {
    RankedIsInGroupOrder(pool, query);
    RowsOfHeaded(pool, Ranked(pool, query));
  }

  lemma RowsOfHeaded(pool: seq<Item>, matched: seq<Item>)
    requires forall k :: 0 <= k < |matched| ==> !matched[k].header
    ensures Rows(WithHeaders(pool, matched)) == matched
  {
    RowsOfWoven(Headers(pool, matched), matched, |matched|);
    assert matched[..|matched|] == matched;
  }

  /** The filtered list holds exactly the matching rows, each as often as the pool does. */
  lemma FilteredRowsAreTheMatches(pool: seq<Item>, query: string, x: Item)
    requires !x.header
    ensures multiset(Filtered(pool, query))[x] == if Matches(query, x) then multiset(pool)[x] else 0
  {
    var matched := Ranked(pool, query);
    RowsOfFiltered(pool, query);
    RowsCount(Filtered(pool, query), x);
    SortKeepsItems(Entries(query, Rows(pool)), Order(pool));
    EntriesCount(query, Rows(pool), x);
    RowsCount(pool, x);
  }

  // ----- where headers stand -----

  /** Every header stands directly before a row of its group, every group's header stands once, and
      before each row of a group with a header stands that header or another row of the group. */
  ghost predicate WellHeaded(pool: seq<Item>, list: seq<Item>) {
    && (forall k :: 0 <= k < |list| && list[k].header ==>
          && k + 1 < |list| && !list[k + 1].header && list[k + 1].group == list[k].group != ""
          && HeaderFor(pool, list[k].group) == Some(list[k]))
    && (forall j, k :: 0 <= j < k < |list| && list[j].header && list[k].header ==> list[j].group != list[k].group)
    && (forall k :: 0 <= k < |list| && !list[k].header && list[k].group != ""
                    && HeaderFor(pool, list[k].group).Some? ==>
          0 < k && list[k - 1].group == list[k].group)
  }

  ghost predicate Contiguous(rows: seq<Item>) {
    && (forall k :: 0 <= k < |rows| ==> !rows[k].header)
    && forall i, j, k :: 0 <= i < j < k < |rows| && rows[i].group == rows[k].group ==> rows[j].group == rows[i].group
  }

  lemma GroupOrderIsContiguous(pool: seq<Item>, query: string, rows: seq<Item>)
    requires InGroupOrder(pool, query, rows)
    ensures Contiguous(rows)
  {
  }

  lemma {:induction false} LastGroupWasNamed(rows: seq<Item>, n: nat) returns (k: nat)
    requires n <= |rows| && LastGroup(rows, n) != ""
    ensures k < n && rows[k].group == LastGroup(rows, n)
  {
    k := n - 1;
    if rows[n - 1].group == "" {
      k := LastGroupWasNamed(rows, n - 1);
    }
  }

  lemma LastGroupStands(rows: seq<Item>, n: nat)
    requires n < |rows| && Contiguous(rows) && LastGroup(rows, n) == rows[n].group != ""
    ensures 0 < n && rows[n - 1].group == rows[n].group
  {
    var k := LastGroupWasNamed(rows, n);
    assert k == n - 1 || rows[n - 1].group == rows[k].group;
  }

  lemma NoEarlierRowOfTheGroup(rows: seq<Item>, n: nat, k: nat)
    requires n < |rows| && Contiguous(rows) && OpensGroup(rows, n) && k < n
    ensures rows[k].group != rows[n].group
  {
    assert rows[n - 1].group != rows[n].group;
  }

  lemma AnotherRowOfTheGroup(pool: seq<Item>, before: seq<Item>, item: Item)
    requires WellHeaded(pool, before) && !item.header
    requires item.group != "" ==> before != [] && before[|before| - 1].group == item.group
    ensures WellHeaded(pool, before + [item])
  {
    var list := before + [item];
    assert forall k :: 0 <= k < |before| ==> list[k] == before[k];
  }

  lemma NewGroupWithoutHeader(pool: seq<Item>, before: seq<Item>, item: Item)
    requires WellHeaded(pool, before) && !item.header && HeaderFor(pool, item.group).None?
    ensures WellHeaded(pool, before + [item])
  {
    var list := before + [item];
    assert forall k :: 0 <= k < |before| ==> list[k] == before[k];
  }

  lemma NewGroupWithHeader(pool: seq<Item>, before: seq<Item>, item: Item)
    requires WellHeaded(pool, before) && !item.header && item.group != "" && HeaderFor(pool, item.group).Some?
    requires forall k :: 0 <= k < |before| ==> before[k].group != item.group
    ensures WellHeaded(pool, before + [HeaderFor(pool, item.group).value] + [item])
  {
    var header := HeaderFor(pool, item.group).value;
    var list := before + [header] + [item];
    assert forall k :: 0 <= k < |before| ==> list[k] == before[k];
    assert list[|before|] == header && list[|before| + 1] == item;
  }

  /** The `k`th row continues its group, has no header to show, or is the first of its group and has it before it. */
  ghost predicate Placed(pool: seq<Item>, before: seq<Item>, rows: seq<Item>, k: nat)
    requires k < |rows|
  {
    var header := HeaderFor(pool, rows[k].group);
    if before != [] then
      header.Some? && before == [header.value] && rows[k].group != ""
      && forall i :: 0 <= i < k ==> rows[i].group != rows[k].group
    else
      rows[k].group == "" || header.None? || (0 < k && rows[k - 1].group == rows[k].group)
  }

  lemma HeaderIsPlaced(pool: seq<Item>, rows: seq<Item>, k: nat)
    requires k < |rows| && Contiguous(rows)
    ensures Placed(pool, HeaderBefore(pool, rows, k), rows, k)
  {
    if OpensGroup(rows, k) {
      forall i | 0 <= i < k ensures rows[i].group != rows[k].group {
        NoEarlierRowOfTheGroup(rows, k, i);
      }
    } else if rows[k].group != "" {
      LastGroupStands(rows, k);
    }
  }

  /** Every element of `list` belongs to the group of one of the first `n` rows. */
  ghost predicate FromGroupsOf(rows: seq<Item>, n: nat, list: seq<Item>)
    requires n <= |rows|
  {
    forall x <- list :: exists k :: 0 <= k < n && rows[k].group == x.group
  }

  lemma OneMoreGroup(rows: seq<Item>, n: nat, before: seq<Item>, header: seq<Item>)
    requires n < |rows| && FromGroupsOf(rows, n, before) && forall x <- header :: x.group == rows[n].group
    ensures FromGroupsOf(rows, n + 1, before + header + [rows[n]])
  {
    var list := before + header + [rows[n]];
    forall x | x in list ensures exists k :: 0 <= k < n + 1 && rows[k].group == x.group {
      if x in before {
        var k :| 0 <= k < n && rows[k].group == x.group;
        assert k < n + 1;
      } else {
        assert rows[n].group == x.group;
      }
    }
  }

  /** What the first `n` rows with their headers satisfy. */
  ghost predicate HeadedUpTo(pool: seq<Item>, rows: seq<Item>, n: nat, list: seq<Item>)
    requires n <= |rows|
  {
    && WellHeaded(pool, list)
    && FromGroupsOf(rows, n, list)
    && (0 < n ==> list != [] && list[|list| - 1] == rows[n - 1])
  }

  lemma OneMoreIsHeaded(pool: seq<Item>, before: seq<Item>, header: seq<Item>, rows: seq<Item>, n: nat)
    requires n < |rows| && !rows[n].header && Placed(pool, header, rows, n) && HeadedUpTo(pool, rows, n, before)
    ensures HeadedUpTo(pool, rows, n + 1, before + header + [rows[n]])
  {
    OneMoreGroup(rows, n, before, header);
    if header != [] {
      forall k | 0 <= k < |before| ensures before[k].group != rows[n].group {
        assert before[k] in before;
      }
      NewGroupWithHeader(pool, before, rows[n]);
    } else {
      assert before + header == before;
      if rows[n].group != "" && HeaderFor(pool, rows[n].group).None? {
        NewGroupWithoutHeader(pool, before, rows[n]);
      } else {
        AnotherRowOfTheGroup(pool, before, rows[n]);
      }
    }
  }

  ghost predicate AllPlaced(pool: seq<Item>, headers: seq<seq<Item>>, rows: seq<Item>) {
    && |headers| == |rows|
    && forall k :: 0 <= k < |rows| ==> !rows[k].header && Placed(pool, headers[k], rows, k)
  }

  lemma {:induction false} WovenIsWellHeaded(pool: seq<Item>, headers: seq<seq<Item>>, rows: seq<Item>, n: nat)
    requires AllPlaced(pool, headers, rows) && n <= |rows|
    ensures HeadedUpTo(pool, rows, n, Woven(headers, rows, n))
  {
    if n != 0 {
      WovenIsWellHeaded(pool, headers, rows, n - 1);
      OneMoreIsHeaded(pool, Woven(headers, rows, n - 1), headers[n - 1], rows, n - 1);
    }
  }

  /** Filtering keeps groups in the pool's order, best scores first, each under its own header. */
  lemma FilteredIsGrouped(pool: seq<Item>, query: string)
    ensures InGroupOrder(pool, query, Rows(Filtered(pool, query)))
    ensures WellHeaded(pool, Filtered(pool, query))
  {
    var matched := Ranked(pool, query);
    RankedIsInGroupOrder(pool, query);
    RowsOfFiltered(pool, query);
    GroupOrderIsContiguous(pool, query, matched);
    forall k | 0 <= k < |matched| ensures Placed(pool, Headers(pool, matched)[k], matched, k) {
      HeaderIsPlaced(pool, matched, k);
    }
    WovenIsWellHeaded(pool, Headers(pool, matched), matched, |matched|);
  }

  /** In a well-headed list the rows of a group stand together below its header. */
  lemma {:induction false} RowStandsUnderItsHeader(pool: seq<Item>, list: seq<Item>, k: nat) returns (h: nat)
    requires WellHeaded(pool, list) && k < |list|
    requires !list[k].header && list[k].group != "" && HeaderFor(pool, list[k].group).Some?
    ensures h < k && HeaderFor(pool, list[k].group) == Some(list[h])
    ensures forall m :: h < m <= k ==> !list[m].header && list[m].group == list[k].group
  {
    if list[k - 1].header {
      h := k - 1;
    } else {
      h := RowStandsUnderItsHeader(pool, list, k - 1);
    }
  }
}
