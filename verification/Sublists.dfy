/**
 Lists taken out of other lists.
 */
module Sublists {

  /** The elements to keep, in order. */
  function Kept<T>(items: seq<T>, keep: T -> bool): (kept: seq<T>)
    ensures (forall x <- kept :: x in items && keep(x)) && (forall x <- items :: keep(x) ==> x in kept)
  {
    if items == [] then []
    else Kept(items[..|items| - 1], keep) + if keep(items[|items| - 1]) then [items[|items| - 1]] else []
  }

  /** `some` stands in `all` at the places `at`, from left to right. */
  ghost predicate Picks<T>(all: seq<T>, some: seq<T>, at: seq<nat>) {
    && |at| == |some|
    && (forall k :: 0 <= k < |at| ==> at[k] < |all| && some[k] == all[at[k]])
    && (forall j, k :: 0 <= j < k < |at| ==> at[j] < at[k])
  }

  /** They are the elements at the places to keep, each once and in order, and no others. */
  lemma {:induction false} KeptPicks<T>(items: seq<T>, keep: T -> bool) returns (at: seq<nat>)
    ensures Picks(items, Kept(items, keep), at)
    ensures forall i :: 0 <= i < |items| ==> (i in at <==> keep(items[i]))
    decreases |items|
  {
    if items == [] {
      at := [];
    } else {
      var init, last := items[..|items| - 1], items[|items| - 1];
      at := KeptPicks(init, keep);
      assert items == init + [last];
      PicksOneMore(init, Kept(init, keep), at, last, keep);
      if keep(last) {
        at := at + [|init|];
      }
    }
  }

  lemma PicksOneMore<T>(all: seq<T>, some: seq<T>, at: seq<nat>, x: T, keep: T -> bool)
    requires Picks(all, some, at) && forall i :: 0 <= i < |all| ==> (i in at <==> keep(all[i]))
    ensures var more := if keep(x) then at + [|all|] else at;
            && Picks(all + [x], if keep(x) then some + [x] else some, more)
            && forall i :: 0 <= i < |all + [x]| ==> (i in more <==> keep((all + [x])[i]))
  {
    assert |all| !in at;
    assert keep(x) ==> (at + [|all|])[|at|] == |all|;
  }

  lemma {:induction false} KeptTwice<T>(items: seq<T>, keep: T -> bool, also: T -> bool, both: T -> bool)
    requires forall x <- items :: both(x) <==> keep(x) && also(x)
    ensures Kept(Kept(items, keep), also) == Kept(items, both)
    decreases |items|
  {
    if items != [] {
      var init, last := items[..|items| - 1], items[|items| - 1];
      assert last in items;
      KeptTwice(init, keep, also, both);
      var kept := Kept(init, keep);
      if keep(last) {
        assert (kept + [last])[..|kept|] == kept;
      } else {
        assert kept + [] == kept;
      }
    }
  }
}
