/**
 The selector's keyword filter: rows that hold every keyword, or the letters of a single one.
 */
module Search {
  import opened Options
  import opened Strings
  import opened Matching
  import opened Filter
  import opened Sublists

  function Key(item: Item): string { if item.id.Some? then item.id.value else item.title }

  function Keywords(query: string): seq<string> { Words(Trim(Lower(query)), IsSpace) }

  /** An empty search text counts as none. */
  function SearchableText(item: Item): string {
    if item.searchText.Some? && item.searchText.value != "" then Lower(item.searchText.value)
    else Lower(item.title + " " + (if item.detail.Some? then item.detail.value else ""))
  }

  predicate Includes(text: string, token: string) {
    exists k :: 0 <= k <= |text| && token <= text[k..]
  }

  predicate HoldsAll(query: string, item: Item) {
    forall token <- Keywords(query) :: Includes(SearchableText(item), token)
  }

  ghost predicate HoldsLetters(query: string, item: Item) {
    && |Keywords(query)| == 1
    && (item.searchText.Some? ==> item.searchText.value == "")
    && Embeds(SearchableText(item), Keywords(query)[0])
  }

  ghost predicate Hit(query: string, item: Item) {
    !item.header && (HoldsAll(query, item) || HoldsLetters(query, item))
  }

  ghost function Exact(query: string): Item -> bool { (item: Item) => !item.header && HoldsAll(query, item) }

  ghost function Fuzzy(query: string): Item -> bool {
    (item: Item) => !item.header && !HoldsAll(query, item) && HoldsLetters(query, item)
  }

  /** Rows that hold every keyword come before those that only hold the letters. */
  ghost function Matched(pool: seq<Item>, query: string): seq<Item> {
    Kept(pool, Exact(query)) + Kept(pool, Fuzzy(query))
  }

  method FindMatched(pool: seq<Item>, query: string) returns (matched: seq<Item>)
    ensures matched == Matched(pool, query)
  {
    var tokens := Keywords(query);
    var exact, fuzzy := [], [];
    for i := 0 to |pool|
      invariant exact == Kept(pool[..i], Exact(query)) && fuzzy == Kept(pool[..i], Fuzzy(query))
    {
      var item := pool[i];
      KeptUpTo(pool, Exact(query), i);
      KeptUpTo(pool, Fuzzy(query), i);
      if item.header {
        continue;
      }
      var text := SearchableText(item);
      if HoldsAll(query, item) {
        exact := exact + [item];
      } else if |tokens| == 1 && (item.searchText.None? || item.searchText.value == "") {
        var found := IsSubsequence(text, tokens[0]);
        if found {
          fuzzy := fuzzy + [item];
        }
      }
    }
    assert pool[..|pool|] == pool;
    matched := exact + fuzzy;
  }

  lemma KeptUpTo(items: seq<Item>, keep: Item -> bool, i: nat)
    requires i < |items|
    ensures Kept(items[..i + 1], keep) == Kept(items[..i], keep) + if keep(items[i]) then [items[i]] else []
  {
    assert items[..i + 1][..i] == items[..i];
  }

  // ----- putting headers back -----

  predicate HasGroup(items: seq<Item>, group: string) { exists x <- items :: x.group == group != "" }

  /** The last of the matched rows with a key. */
  function LastWith(matched: seq<Item>, key: string): (r: Option<Item>)
    ensures r.Some? ==> r.value in matched && Key(r.value) == key
    ensures r.None? <==> forall x <- matched :: Key(x) != key
  {
    if matched == [] then None
    else if Key(matched[|matched| - 1]) == key then Some(matched[|matched| - 1])
    else LastWith(matched[..|matched| - 1], key)
  }

  function ShownAt(matched: seq<Item>, item: Item): seq<Item> {
    if item.header then if HasGroup(matched, item.group) then [item] else []
    else if item.expanded && HasGroup(matched, item.group) then [item]
    else
      var hit := LastWith(matched, Key(item));
      if hit.Some? then [hit.value] else []
  }

  function Showing(matched: seq<Item>): Item -> seq<Item> { (item: Item) => ShownAt(matched, item) }

  function Flat(items: seq<Item>, show: Item -> seq<Item>): seq<Item> {
    if items == [] then [] else Flat(items[..|items| - 1], show) + show(items[|items| - 1])
  }

  function RestoreGroupHeaders(pool: seq<Item>, matched: seq<Item>): seq<Item> {
    if forall x <- matched :: x.group == "" then matched else Flat(pool, Showing(matched))
  }

  ghost function Found(pool: seq<Item>, query: string): seq<Item> { RestoreGroupHeaders(pool, Matched(pool, query)) }

  // ----- exactness -----

  lemma {:induction false} KeptCount(items: seq<Item>, keep: Item -> bool, x: Item)
    ensures multiset(Kept(items, keep))[x] == if keep(x) then multiset(items)[x] else 0
    decreases |items|
  {
    if items != [] {
      var init, last := items[..|items| - 1], items[|items| - 1];
      assert items == init + [last];
      KeptCount(init, keep, x);
      CountOfSum(init, [last], x);
      CountOfSum(Kept(init, keep), if keep(last) then [last] else [], x);
    }
  }

  /** The matched rows are exactly those that match, each as often as in the pool. */
  lemma MatchedIsExact(pool: seq<Item>, query: string, x: Item)
    ensures multiset(Matched(pool, query))[x] == if Hit(query, x) then multiset(pool)[x] else 0
  {
    KeptCount(pool, Exact(query), x);
    KeptCount(pool, Fuzzy(query), x);
    CountOfSum(Kept(pool, Exact(query)), Kept(pool, Fuzzy(query)), x);
  }

  lemma HitIsMatched(pool: seq<Item>, query: string, x: Item)
    ensures x in Matched(pool, query) <==> x in pool && Hit(query, x)
  {
    MatchedIsExact(pool, query, x);
    assert x in pool <==> multiset(pool)[x] != 0;
    assert x in Matched(pool, query) <==> multiset(Matched(pool, query))[x] != 0;
  }

  /** Where grouped rows match, what should stay of the pool: the matching rows, every header of a
      group with a match, and the package rows of such a group. */
  ghost predicate Wanted(pool: seq<Item>, query: string, item: Item) {
    || (!item.header && item in pool && Hit(query, item))
    || ((item.header || item.expanded) && exists x <- pool :: Hit(query, x) && x.group == item.group != "")
  }

  ghost function WantedOf(pool: seq<Item>, query: string): Item -> bool { (item: Item) => Wanted(pool, query, item) }

  ghost predicate NoneHas(pool: seq<Item>, keep: Item -> bool, key: string) {
    forall x <- pool :: keep(x) ==> Key(x) != key
  }

  /** Of the rows to keep that have its key, the item is the last one in the pool. */
  ghost predicate HasItLast(pool: seq<Item>, keep: Item -> bool, item: Item) {
    exists k :: 0 <= k < |pool| && pool[k] == item && keep(item) && NoneHas(pool[k + 1..], keep, Key(item))
  }

  /** A row is not under the key of another match: it is a header, a package row of a group with a match, no
      matching row has its key, or of those that have it the item comes last. Rows that only hold the
      letters come after those that hold every keyword. */
  ghost predicate HoldsItsKey(pool: seq<Item>, query: string, item: Item) {
    || item.header || (item.expanded && exists x <- pool :: Hit(query, x) && x.group == item.group != "")
    || (forall x <- pool :: Hit(query, x) ==> Key(x) != Key(item))
    || HasItLast(pool, Fuzzy(query), item)
    || (NoneHas(pool, Fuzzy(query), Key(item)) && HasItLast(pool, Exact(query), item))
  }

  lemma {:induction false} LastKept(pool: seq<Item>, keep: Item -> bool, item: Item)
    ensures LastWith(Kept(pool, keep), Key(item)) == None <==> NoneHas(pool, keep, Key(item))
    ensures LastWith(Kept(pool, keep), Key(item)) == Some(item) <==> HasItLast(pool, keep, item)
  {
    if pool == [] {
    } else {
      var init, last := pool[..|pool| - 1], pool[|pool| - 1];
      assert pool == init + [last];
      LastKept(init, keep, item);
      LastOfSum(Kept(init, keep), if keep(last) then [last] else [], Key(item));
      LastHasIt(init, last, keep, item);
    }
  }

  lemma LastHasIt(init: seq<Item>, last: Item, keep: Item -> bool, item: Item)
    ensures HasItLast(init + [last], keep, item)
            <==> if keep(last) && Key(last) == Key(item) then last == item else HasItLast(init, keep, item)
    ensures NoneHas(init + [last], keep, Key(item))
            <==> NoneHas(init, keep, Key(item)) && !(keep(last) && Key(last) == Key(item))
  {
    var all, key := init + [last], Key(item);
    forall k | 0 <= k < |init|
      ensures all[k] == init[k] && all[k + 1..] == init[k + 1..] + [last]
      ensures NoneHas(all[k + 1..], keep, key)
              <==> NoneHas(init[k + 1..], keep, key) && !(keep(last) && Key(last) == key)
    {
      assert last in all[k + 1..];
    }
    assert all[|init|] == last && all[|init| + 1..] == [];
  }

  lemma LastOfSum(a: seq<Item>, b: seq<Item>, key: string)
    ensures LastWith(a + b, key) == if LastWith(b, key).Some? then LastWith(b, key) else LastWith(a, key)
  {
    if b == [] {
      assert a + b == a;
    } else {
      assert (a + b)[..|a + b| - 1] == a + b[..|b| - 1];
      LastOfSum(a, b[..|b| - 1], key);
    }
  }

  /** The key's last match, in the order in which the matches are listed. */
  lemma HoldsItsKeyMeans(pool: seq<Item>, query: string, item: Item)
    ensures var last := LastWith(Matched(pool, query), Key(item));
            && (last == None <==> forall x <- pool :: Hit(query, x) ==> Key(x) != Key(item))
            && (last == Some(item) <==>
                 || HasItLast(pool, Fuzzy(query), item)
                 || (NoneHas(pool, Fuzzy(query), Key(item)) && HasItLast(pool, Exact(query), item)))
  {
    LastOfSum(Kept(pool, Exact(query)), Kept(pool, Fuzzy(query)), Key(item));
    LastKept(pool, Exact(query), item);
    LastKept(pool, Fuzzy(query), item);
  }

  lemma GroupHasMatch(pool: seq<Item>, query: string, group: string)
    ensures HasGroup(Matched(pool, query), group) <==> exists x <- pool :: Hit(query, x) && x.group == group != ""
  {
    var matched := Matched(pool, query);
    if HasGroup(matched, group) {
      var x :| x in matched && x.group == group != "";
      HitIsMatched(pool, query, x);
    }
    if exists x <- pool :: Hit(query, x) && x.group == group != "" {
      var x :| x in pool && Hit(query, x) && x.group == group != "";
      HitIsMatched(pool, query, x);
    }
  }

  lemma ShownIsWanted(pool: seq<Item>, query: string, item: Item)
    requires item in pool
    ensures var shown, wanted := ShownAt(Matched(pool, query), item), if Wanted(pool, query, item) then [item] else [];
            |wanted| <= |shown| && (shown == wanted <==> HoldsItsKey(pool, query, item))
  {
    GroupHasMatch(pool, query, item.group);
    HitIsMatched(pool, query, item);
    HoldsItsKeyMeans(pool, query, item);
  }

  /** Showing item by item gives the kept items exactly when it does so for each of them. */
  lemma {:induction false} FlatIsKeptIff(items: seq<Item>, show: Item -> seq<Item>, keep: Item -> bool,
                                         fits: Item -> bool)
    requires forall x <- items :: var one := if keep(x) then [x] else [];
             |one| <= |show(x)| && (show(x) == one <==> fits(x))
    ensures |Kept(items, keep)| <= |Flat(items, show)|
    ensures Flat(items, show) == Kept(items, keep) <==> forall x <- items :: fits(x)
  {
    if items != [] {
      var init, last := items[..|items| - 1], items[|items| - 1];
      assert items == init + [last];
      FlatIsKeptIff(init, show, keep, fits);
      SumsAgree(Flat(init, show), show(last), Kept(init, keep), if keep(last) then [last] else []);
    }
  }

  lemma SumsAgree(a: seq<Item>, b: seq<Item>, c: seq<Item>, d: seq<Item>)
    requires |c| <= |a| && |d| <= |b|
    ensures a + b == c + d <==> a == c && b == d
  {
    if a + b == c + d {
      assert |a| == |c|;
      assert a == (a + b)[..|a|] && b == (a + b)[|a|..];
      assert c == (c + d)[..|c|] && d == (c + d)[|c|..];
    }
  }

  ghost function HoldsItsKeyIn(pool: seq<Item>, query: string): Item -> bool {
    (item: Item) => HoldsItsKey(pool, query, item)
  }

  /** Where a grouped row matches, the list shows what is wanted of the pool, in its order, exactly when
      no row stands under the key of another matching row. */
  lemma FoundIsExactIffKeysHold(pool: seq<Item>, query: string)
    requires exists x <- pool :: Hit(query, x) && x.group != ""
    ensures Found(pool, query) == Kept(pool, WantedOf(pool, query)) <==> forall x <- pool :: HoldsItsKey(pool, query, x)
  {
    var x :| x in pool && Hit(query, x) && x.group != "";
    HitIsMatched(pool, query, x);
    var show, keep, fits := Showing(Matched(pool, query)), WantedOf(pool, query), HoldsItsKeyIn(pool, query);
    forall x | x in pool
      ensures var one := if keep(x) then [x] else []; |one| <= |show(x)| && (show(x) == one <==> fits(x))
    {
      ShownIsWanted(pool, query, x);
    }
    FlatIsKeptIff(pool, show, keep, fits);
  }

  /** Where no matching row has a group, the list is the matching rows. */
  lemma UngroupedIsExact(pool: seq<Item>, query: string, x: Item)
    requires forall x <- pool :: Hit(query, x) ==> x.group == ""
    ensures multiset(Found(pool, query))[x] == if Hit(query, x) then multiset(pool)[x] else 0
  {
    forall x | x in Matched(pool, query) ensures x.group == "" {
      HitIsMatched(pool, query, x);
    }
    MatchedIsExact(pool, query, x);
  }

  /** Distinct keys are enough. */
  lemma DistinctKeysHold(pool: seq<Item>, query: string, x: Item)
    requires forall a, b :: a in pool && b in pool && !a.header && !b.header && Key(a) == Key(b) ==> a == b
    requires x in pool
    ensures HoldsItsKey(pool, query, x)
  {
    var hit := LastWith(Matched(pool, query), Key(x));
    HoldsItsKeyMeans(pool, query, x);
    if hit.Some? {
      HitIsMatched(pool, query, hit.value);
    }
  }

  lemma OneKeyword()
    ensures Keywords("y") == ["y"]
  {
    assert Lower("y") == "y" && Trim("y") == "y";
    assert "y"[..1] == "y" && "y"[1..] == "" && Words("", IsSpace) == [];
    assert RunLength("y", IsSpace) == 1;
  }

  /** Two rows of a group under one key: searching for the second shows it in both places. */
  lemma SharedKeyShowsOneRowTwice() returns (pool: seq<Item>, query: string)
    ensures |pool| == 2 && !Hit(query, pool[0]) && Hit(query, pool[1]) && Found(pool, query) == [pool[1], pool[1]]
  {
    var a := Item("a", Some("x"), None, false, true, "g", false, Some("x"), false);
    var b := Item("a", Some("y"), None, false, true, "g", false, Some("y"), false);
    pool, query := [a, b], "y";
    OneKeyword();
    assert SearchableText(a) == "x" && SearchableText(b) == "y";
    assert !HoldsAll(query, a) by {
      forall k | 0 <= k <= 1 ensures !("y" <= "x"[k..]) {
        assert k == 0 ==> "x"[k..][0] != "y"[0];
      }
      assert !Includes("x", "y") && "y" in Keywords(query);
    }
    assert !Exact(query)(a) && !Fuzzy(query)(a) && !Fuzzy(query)(b);
    assert Exact(query)(b) by {
      assert "y" <= "y"[0..];
    }
    assert pool[..1] == [a] && [a][..0] == [];
    assert Kept([a], Exact(query)) == [] && Kept([a], Fuzzy(query)) == [];
    assert Kept(pool, Exact(query)) == [b] && Kept(pool, Fuzzy(query)) == [];
    var matched := Matched(pool, query);
    assert matched == [b];
    assert Showing(matched)(a) == [b] && Showing(matched)(b) == [b];
    assert Flat([a], Showing(matched)) == [b];
  }
}
