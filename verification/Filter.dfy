/**
 The selector's model filter: which rows match, in which order they stand, and where group headers go.
 */
module Filter {
  import opened Options
  import opened Strings
  import opened Matching

  /** `group` is empty for a row that belongs to no group. */
  datatype Item = Item(
    title: string, detail: Option<string>, id: Option<string>, header: bool, focusable: bool, group: string,
    searchOnly: bool, searchText: Option<string>, expanded: bool)

  // ----- words -----

  /** The maximal runs of characters that are not separators. */
  function Words(s: string, separator: char -> bool): (words: seq<string>)
    decreases |s|
  {
    if s == "" then []
    else if separator(s[0]) then Words(s[1..], separator)
    else
      var n := RunLength(s, separator);
      [s[..n]] + Words(s[n..], separator)
  }

  function RunLength(s: string, separator: char -> bool): (n: nat)
    ensures n <= |s| && (s != "" && !separator(s[0]) ==> 0 < n)
  {
    if s == "" || separator(s[0]) then 0 else 1 + RunLength(s[1..], separator)
  }

  /** Letters followed by digits, or digits followed by letters, with the two halves exchanged. */
  function Swapped(token: string): string {
    var letters, digits := RunLength(token, c => !IsLetter(c)), RunLength(token, c => !IsDigit(c));
    if 0 < letters < |token| && RunLength(token[letters..], c => !IsDigit(c)) == |token| - letters
    then token[letters..] + token[..letters]
    else if 0 < digits < |token| && RunLength(token[digits..], c => !IsLetter(c)) == |token| - digits
    then token[digits..] + token[..digits]
    else ""
  }

  // ----- scoring a row -----

  function SearchText(item: Item): string {
    if item.searchText.Some? then item.searchText.value
    else item.title + " " + (if item.detail.Some? then item.detail.value else "")
  }

  function Tokens(query: string): seq<string> { Words(Trim(query), c => IsSpace(c) || c == '/') }

  function TokenScore(token: string, text: string): Option<real> {
    var primary := FuzzyScore(token, text);
    if primary.Some? then primary
    else
      var swapped := if Swapped(token) == "" then None else FuzzyScore(Swapped(token), text);
      if swapped.None? then None else Some(swapped.value + 5.0)
  }

  function TotalScore(tokens: seq<string>, text: string): Option<real> {
    if tokens == [] then Some(0.0)
    else
      match (TotalScore(tokens[..|tokens| - 1], text), TokenScore(tokens[|tokens| - 1], text))
      case (Some(before), Some(last)) => Some(before + last)
      case _ => None
  }

  function ModelScore(query: string, item: Item): Option<real> { TotalScore(Tokens(query), SearchText(item)) }

  /** Every word of the query embeds in the row's text, as typed or with its letters and digits exchanged. */
  ghost predicate Matches(query: string, item: Item) {
    forall token <- Tokens(query) :: TokenMatches(token, SearchText(item))
  }

  ghost predicate TokenMatches(token: string, text: string) {
    || Embeds(Lower(text), Lower(token))
    || (Swapped(token) != "" && Embeds(Lower(text), Lower(Swapped(token))))
  }

  lemma TokenScoreIsExact(token: string, text: string)
    ensures TokenScore(token, text).Some? <==> TokenMatches(token, text)
  {
    FuzzyScoreIsExact(token, text);
    FuzzyScoreIsExact(Swapped(token), text);
  }

  lemma {:induction false} TotalScoreIsExact(tokens: seq<string>, text: string)
    ensures TotalScore(tokens, text).Some? <==> forall token <- tokens :: TokenMatches(token, text)
    decreases |tokens|
  {
    if tokens != [] {
      var init, last := tokens[..|tokens| - 1], tokens[|tokens| - 1];
      TotalScoreIsExact(init, text);
      TokenScoreIsExact(last, text);
      assert tokens == init + [last];
    }
  }

  /** A row has a score exactly when it matches. */
  lemma ModelScoreIsExact(query: string, item: Item)
    ensures ModelScore(query, item).Some? <==> Matches(query, item)
  {
    TotalScoreIsExact(Tokens(query), SearchText(item));
  }

  lemma TotalOfOneMore(tokens: seq<string>, text: string, i: nat, total: real, score: real)
    requires i < |tokens| && TotalScore(tokens[..i], text) == Some(total) && TokenScore(tokens[i], text) == Some(score)
    ensures TotalScore(tokens[..i + 1], text) == Some(total + score)
  {
    assert tokens[..i + 1][..i] == tokens[..i];
  }

  method ModelFuzzyScore(query: string, item: Item) returns (r: Option<real>)
    ensures r == ModelScore(query, item)
  {
    var tokens := Tokens(query);
    var text := SearchText(item);
    var total := 0.0;
    for i := 0 to |tokens|
      invariant TotalScore(tokens[..i], text) == Some(total)
    {
      var primary := FuzzyMatchScore(tokens[i], text);
      if primary.Some? {
        TotalOfOneMore(tokens, text, i, total, primary.value);
        total := total + primary.value;
        continue;
      }
      var swapped := Swapped(tokens[i]);
      var swappedScore := None;
      if swapped != "" {
        swappedScore := FuzzyMatchScore(swapped, text);
      }
      if swappedScore.None? {
        ScoreFailsAt(tokens, text, i);
        return None;
      }
      TotalOfOneMore(tokens, text, i, total, swappedScore.value + 5.0);
      total := total + (swappedScore.value + 5.0);
    }
    assert tokens[..|tokens|] == tokens;
    return Some(total);
  }

  lemma {:induction false} ScoreFailsAt(tokens: seq<string>, text: string, k: nat)
    requires k < |tokens| && TokenScore(tokens[k], text).None?
    ensures TotalScore(tokens, text).None?
    decreases |tokens|
  {
    if k < |tokens| - 1 {
      ScoreFailsAt(tokens[..|tokens| - 1], text, k);
    }
  }

  // ----- ranking -----

  datatype Entry = Entry(item: Item, index: nat, score: real)

  function Rows(items: seq<Item>): (rows: seq<Item>)
    ensures forall k :: 0 <= k < |rows| ==> !rows[k].header
  {
    if items == [] then []
    else Rows(items[..|items| - 1]) + if items[|items| - 1].header then [] else [items[|items| - 1]]
  }

  /** The matching rows with their scores, numbered in the order of the pool. */
  function Entries(query: string, rows: seq<Item>): (entries: seq<Entry>)
    ensures forall k :: 0 <= k < |entries| ==> entries[k].index < |rows| && entries[k].item == rows[entries[k].index]
    ensures forall j, k :: 0 <= j < k < |entries| ==> entries[j].index < entries[k].index
  {
    if rows == [] then []
    else
      var before, last := Entries(query, rows[..|rows| - 1]), rows[|rows| - 1];
      var score := ModelScore(query, last);
      if score.Some? then before + [Entry(last, |rows| - 1, score.value)] else before
  }

  lemma EntriesUpTo(query: string, rows: seq<Item>, i: nat)
    requires i < |rows|
    ensures Entries(query, rows[..i + 1])
            == Entries(query, rows[..i])
               + (match ModelScore(query, rows[i]) case None => [] case Some(score) => [Entry(rows[i], i, score)])
  {
    assert rows[..i + 1][..i] == rows[..i];
  }

  /** Where a group first appears in the pool. */
  function GroupRank(pool: seq<Item>, group: string): (r: nat)
    ensures r <= |pool|
    ensures r < |pool| ==> pool[r].group == group
    ensures forall k :: 0 <= k < r ==> pool[k].group != group
  {
    if pool == [] || pool[0].group == group then 0 else 1 + GroupRank(pool[1..], group)
  }

  /** Configured group order first, then score, then the order of the pool. */
  predicate Before(pool: seq<Item>, a: Entry, b: Entry) {
    var ga, gb := GroupRank(pool, a.item.group), GroupRank(pool, b.item.group);
    ga < gb || (ga == gb && (a.score < b.score || (a.score == b.score && a.index <= b.index)))
  }

  function Order(pool: seq<Item>): (Entry, Entry) -> bool { (a, b) => Before(pool, a, b) }

  ghost predicate TotalOrder<T(!new)>(before: (T, T) -> bool) {
    && (forall a, b :: before(a, b) || before(b, a))
    && (forall a, b, c :: before(a, b) && before(b, c) ==> before(a, c))
  }

  lemma OrderIsTotal(pool: seq<Item>)
    ensures TotalOrder(Order(pool))
  {
  }

  ghost predicate Sorted<T>(entries: seq<T>, before: (T, T) -> bool) {
    forall j, k :: 0 <= j < k < |entries| ==> before(entries[j], entries[k])
  }

  function Insert<T>(e: T, sorted: seq<T>, before: (T, T) -> bool): seq<T> {
    if sorted == [] then [e]
    else if before(e, sorted[0]) then [e] + sorted
    else [sorted[0]] + Insert(e, sorted[1..], before)
  }

  lemma {:induction false} InsertAdds<T>(e: T, sorted: seq<T>, before: (T, T) -> bool)
    ensures multiset(Insert(e, sorted, before)) == multiset(sorted) + multiset{e}
  {
    if sorted != [] && !before(e, sorted[0]) {
      assert sorted == [sorted[0]] + sorted[1..];
      InsertAdds(e, sorted[1..], before);
    }
  }

  lemma {:induction false} InsertSorts<T(!new)>(e: T, sorted: seq<T>, before: (T, T) -> bool)
    requires TotalOrder(before) && Sorted(sorted, before)
    ensures Sorted(Insert(e, sorted, before), before)
  {
    if sorted != [] && !before(e, sorted[0]) {
      InsertSorts(e, sorted[1..], before);
      InsertAdds(e, sorted[1..], before);
      var rest := Insert(e, sorted[1..], before);
      forall k | 0 <= k < |rest| ensures before(sorted[0], rest[k]) {
        assert rest[k] in multiset(rest);
      }
    }
  }

  function Sort<T>(entries: seq<T>, before: (T, T) -> bool): seq<T> {
    if entries == [] then []
    else Insert(entries[|entries| - 1], Sort(entries[..|entries| - 1], before), before)
  }

  /** Sorting orders the entries and neither adds nor loses one. */
  lemma {:induction false} SortIsAPermutation<T(!new)>(entries: seq<T>, before: (T, T) -> bool)
    requires TotalOrder(before)
    ensures multiset(Sort(entries, before)) == multiset(entries)
    ensures Sorted(Sort(entries, before), before)
  {
    if entries != [] {
      var init, last := entries[..|entries| - 1], entries[|entries| - 1];
      assert entries == init + [last];
      SortIsAPermutation(init, before);
      InsertAdds(last, Sort(init, before), before);
      InsertSorts(last, Sort(init, before), before);
    }
  }

  function Items(entries: seq<Entry>): (items: seq<Item>)
    ensures |items| == |entries| && forall k :: 0 <= k < |items| ==> items[k] == entries[k].item
  {
    seq(|entries|, k requires 0 <= k < |entries| => entries[k].item)
  }

  function Ranked(pool: seq<Item>, query: string): seq<Item> { Items(Sort(Entries(query, Rows(pool)), Order(pool))) }

  // ----- exactness -----

  lemma CountOfSum(a: seq<Item>, b: seq<Item>, x: Item)
    ensures multiset(a + b)[x] == multiset(a)[x] + multiset(b)[x]
  {
  }

  function MatchOf(query: string, item: Item): seq<Item> { if ModelScore(query, item).Some? then [item] else [] }

  lemma EntriesOfOneMore(query: string, rows: seq<Item>)
    requires rows != []
    ensures Items(Entries(query, rows)) == Items(Entries(query, rows[..|rows| - 1])) + MatchOf(query, rows[|rows| - 1])
  {
  }

  /** How often a row is listed: as often as the pool holds it when it matches, never otherwise. */
  lemma {:induction false} EntriesCount(query: string, rows: seq<Item>, x: Item)
    ensures multiset(Items(Entries(query, rows)))[x] == if Matches(query, x) then multiset(rows)[x] else 0
    decreases |rows|
  {
    if rows != [] {
      var init, last := rows[..|rows| - 1], rows[|rows| - 1];
      assert rows == init + [last];
      EntriesCount(query, init, x);
      EntriesOfOneMore(query, rows);
      CountOfSum(Items(Entries(query, init)), MatchOf(query, last), x);
      CountOfSum(init, [last], x);
      ModelScoreIsExact(query, last);
    }
  }

  lemma ItemsOfSum(a: seq<Entry>, b: seq<Entry>)
    ensures Items(a + b) == Items(a) + Items(b)
  {
  }

  lemma {:induction false} InsertAddsItem(e: Entry, sorted: seq<Entry>, before: (Entry, Entry) -> bool)
    ensures multiset(Items(Insert(e, sorted, before))) == multiset(Items(sorted)) + multiset{e.item}
  {
    assert Items([e]) == [e.item];
    if sorted == [] || before(e, sorted[0]) {
      ItemsOfSum([e], sorted);
      assert [e] + sorted == Insert(e, sorted, before);
    } else {
      var rest := sorted[1..];
      InsertAddsItem(e, rest, before);
      ItemsOfSum([sorted[0]], rest);
      ItemsOfSum([sorted[0]], Insert(e, rest, before));
      assert [sorted[0]] + rest == sorted;
    }
  }

  lemma {:induction false} SortKeepsItems(entries: seq<Entry>, before: (Entry, Entry) -> bool)
    ensures multiset(Items(Sort(entries, before))) == multiset(Items(entries))
  {
    if entries != [] {
      var init, last := entries[..|entries| - 1], entries[|entries| - 1];
      SortKeepsItems(init, before);
      InsertAddsItem(last, Sort(init, before), before);
      ItemsOfSum(init, [last]);
      assert entries == init + [last] && Items([last]) == [last.item];
    }
  }

  lemma {:induction false} RowsCount(items: seq<Item>, x: Item)
    requires !x.header
    ensures multiset(Rows(items))[x] == multiset(items)[x]
    decreases |items|
  {
    if items != [] {
      assert items == items[..|items| - 1] + [items[|items| - 1]];
      RowsCount(items[..|items| - 1], x);
    }
  }

  // ----- groups -----

  /** Rows stand in the pool's group order, and within a group from the best score to the worst. */
  ghost predicate InGroupOrder(pool: seq<Item>, query: string, rows: seq<Item>) {
    && (forall k :: 0 <= k < |rows| ==> !rows[k].header && rows[k] in pool && ModelScore(query, rows[k]).Some?)
    && forall j, k :: 0 <= j < k < |rows| ==>
         || GroupRank(pool, rows[j].group) < GroupRank(pool, rows[k].group)
         || (rows[j].group == rows[k].group && ModelScore(query, rows[j]).value <= ModelScore(query, rows[k]).value)
  }

  lemma {:induction false} RowsComeFromThePool(items: seq<Item>)
    ensures forall x :: x in Rows(items) ==> x in items
  {
    if items != [] {
      RowsComeFromThePool(items[..|items| - 1]);
    }
  }

  lemma {:induction false} EntriesAreScored(query: string, rows: seq<Item>)
    ensures forall e :: e in Entries(query, rows) ==> e.item in rows && ModelScore(query, e.item) == Some(e.score)
    decreases |rows|
  {
    if rows != [] {
      EntriesAreScored(query, rows[..|rows| - 1]);
    }
  }

  lemma RankIsInjective(pool: seq<Item>, a: Item, b: Item)
    requires a in pool && GroupRank(pool, a.group) == GroupRank(pool, b.group)
    ensures a.group == b.group
  {
    var r := GroupRank(pool, a.group);
    assert r < |pool| by {
      var k :| 0 <= k < |pool| && pool[k] == a;
    }
  }

  lemma RankedIsInGroupOrder(pool: seq<Item>, query: string)
    ensures InGroupOrder(pool, query, Ranked(pool, query))
  {
    var entries := Entries(query, Rows(pool));
    var sorted := Sort(entries, Order(pool));
    OrderIsTotal(pool);
    SortIsAPermutation(entries, Order(pool));
    EntriesAreScored(query, Rows(pool));
    RowsComeFromThePool(pool);
    var rows := Ranked(pool, query);
    forall k | 0 <= k < |rows|
      ensures !rows[k].header && rows[k] in pool && ModelScore(query, rows[k]) == Some(sorted[k].score)
    {
      assert sorted[k] in multiset(entries);
      assert rows[k] in Rows(pool);
    }
    forall j, k | 0 <= j < k < |rows|
      ensures GroupRank(pool, rows[j].group) < GroupRank(pool, rows[k].group)
              || (rows[j].group == rows[k].group && sorted[j].score <= sorted[k].score)
    {
      assert Order(pool)(sorted[j], sorted[k]);
      BeforeInGroups(pool, sorted[j], sorted[k]);
    }
  }

  /** Entry `e` is row `e.index` with its score. */
  ghost predicate Scored(query: string, rows: seq<Item>, e: Entry) {
    e.index < |rows| && e.item == rows[e.index] && ModelScore(query, e.item) == Some(e.score)
  }

  lemma SortedAreScored(pool: seq<Item>, query: string) returns (sorted: seq<Entry>)
    ensures Items(sorted) == Ranked(pool, query) && Sorted(sorted, Order(pool))
    ensures forall k :: 0 <= k < |sorted| ==> Scored(query, Rows(pool), sorted[k])
  {
    var entries := Entries(query, Rows(pool));
    sorted := Sort(entries, Order(pool));
    OrderIsTotal(pool);
    SortIsAPermutation(entries, Order(pool));
    EntriesAreScored(query, Rows(pool));
    forall k | 0 <= k < |sorted| ensures Scored(query, Rows(pool), sorted[k]) {
      assert sorted[k] in multiset(entries);
    }
  }

  lemma TiesInOrder(pool: seq<Item>, a: Entry, b: Entry)
    requires Order(pool)(a, b) && a.item.group == b.item.group && a.score == b.score
    ensures a.index <= b.index
  {
  }

  /** Rows of one group with equal scores stand in the order of the pool. */
  lemma TiesKeepTheirOrder(pool: seq<Item>, query: string) returns (at: seq<nat>)
    ensures |at| == |Ranked(pool, query)|
    ensures forall k :: 0 <= k < |at| ==> at[k] < |Rows(pool)| && Ranked(pool, query)[k] == Rows(pool)[at[k]]
    ensures forall j, k :: 0 <= j < k < |at| && Ranked(pool, query)[j].group == Ranked(pool, query)[k].group
                           && ModelScore(query, Ranked(pool, query)[j]) == ModelScore(query, Ranked(pool, query)[k]) ==>
              at[j] <= at[k]
  {
    var sorted := SortedAreScored(pool, query);
    var ranked := Items(sorted);
    at := seq(|sorted|, k requires 0 <= k < |sorted| => sorted[k].index);
    forall j, k | 0 <= j < k < |at| && ranked[j].group == ranked[k].group
                  && ModelScore(query, ranked[j]) == ModelScore(query, ranked[k])
      ensures at[j] <= at[k]
    {
      TiesInOrder(pool, sorted[j], sorted[k]);
    }
  }

  lemma BeforeInGroups(pool: seq<Item>, a: Entry, b: Entry)
    requires Before(pool, a, b) && a.item in pool
    ensures GroupRank(pool, a.item.group) < GroupRank(pool, b.item.group)
            || (a.item.group == b.item.group && a.score <= b.score)
  {
    if GroupRank(pool, a.item.group) == GroupRank(pool, b.item.group) {
      RankIsInjective(pool, a.item, b.item);
    }
  }
}
