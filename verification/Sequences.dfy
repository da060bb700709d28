/** Searching, filtering and mapping sequences, as Array.prototype does it. */
module Sequences {
  import opened Results

  ghost predicate Distinct<T>(s: seq<T>) {
    forall i, j | 0 <= i < j < |s| :: s[i] != s[j]
  }

  function MapSeq<A, B>(items: seq<A>, f: A -> B): (mapped: seq<B>)
    ensures |mapped| == |items| && forall k | 0 <= k < |items| :: mapped[k] == f(items[k])
  {
    seq(|items|, k requires 0 <= k < |items| => f(items[k]))
  }

  /** The first position that satisfies the condition. */
  function FirstIndex<T>(s: seq<T>, p: T -> bool): (found: Option<nat>)
    ensures found.Some? ==> found.value < |s| && p(s[found.value]) && forall j | 0 <= j < found.value :: !p(s[j])
    ensures found.None? ==> forall j | 0 <= j < |s| :: !p(s[j])
  {
    if s == [] then None
    else
      var before, last := FirstIndex(s[..|s| - 1], p), |s| - 1;
      if before.Some? then before else if p(s[last]) then Some(last) else None
  }

  function Filter<T>(s: seq<T>, p: T -> bool): (kept: seq<T>)
    ensures forall x | x in kept :: x in s && p(x)
    ensures forall x | x in s && p(x) :: x in kept
    ensures |kept| <= |s|
  {
    if s == [] then []
    else Filter(s[..|s| - 1], p) + if p(s[|s| - 1]) then [s[|s| - 1]] else []
  }

  lemma FilterOneMore<T>(s: seq<T>, x: T, p: T -> bool)
    ensures Filter(s + [x], p) == if p(x) then Filter(s, p) + [x] else Filter(s, p)
  {
    assert (s + [x])[..|s|] == s;
    assert Filter(s, p) + [] == Filter(s, p);
  }

  lemma {:induction false} FilterOfBoth<T>(s: seq<T>, more: seq<T>, p: T -> bool)
    ensures Filter(s + more, p) == Filter(s, p) + Filter(more, p)
  {
    if more == [] {
      assert s + more == s;
      assert Filter(s, p) + Filter(more, p) == Filter(s, p);
    } else {
      assert (s + more)[..|s + more| - 1] == s + more[..|more| - 1];
      FilterOfBoth(s, more[..|more| - 1], p);
    }
  }

  lemma {:induction false} FilterAll<T>(s: seq<T>, p: T -> bool)
    requires forall x | x in s :: p(x)
    ensures Filter(s, p) == s
  {
    if s != [] {
      var init, last := s[..|s| - 1], s[|s| - 1];
      assert init + [last] == s && last in s;
      FilterOneMore(init, last, p);
      hide Filter;
      FilterAll(init, p);
    }
  }

  lemma {:induction false} FilterNone<T>(s: seq<T>, p: T -> bool)
    requires forall x | x in s :: !p(x)
    ensures Filter(s, p) == []
  {
    if s != [] {
      var init, last := s[..|s| - 1], s[|s| - 1];
      assert init + [last] == s && last in s;
      FilterOneMore(init, last, p);
      hide Filter;
      FilterNone(init, p);
    }
  }

  lemma OnlyAdded<T>(kept: seq<T>, added: seq<T>, p: T -> bool)
    requires (forall x | x in kept :: !p(x)) && (forall x | x in added :: p(x))
    ensures Filter(kept + added, p) == added
  {
    FilterOfBoth(kept, added, p);
    FilterNone(kept, p);
    FilterAll(added, p);
  }

  /** The places of the kept items: every place of an item that satisfies the condition, in order. */
  ghost predicate PlacesOf<T>(s: seq<T>, p: T -> bool, kept: seq<T>, at: seq<nat>) {
    && |at| == |kept| && (forall k | 0 <= k < |at| :: at[k] < |s| && s[at[k]] == kept[k])
    && (forall j, k | 0 <= j < k < |at| :: at[j] < at[k])
    && (forall i: nat | i < |s| && p(s[i]) :: i in at)
  }

  lemma PlacesOneMore<T>(s: seq<T>, x: T, p: T -> bool, kept: seq<T>, at: seq<nat>)
    requires PlacesOf(s, p, kept, at)
    ensures p(x) ==> PlacesOf(s + [x], p, kept + [x], at + [|s|])
    ensures !p(x) ==> PlacesOf(s + [x], p, kept, at)
  {
  }

  lemma NoPlaces<T>(p: T -> bool)
    ensures PlacesOf([], p, Filter([], p), [])
  {
  }

  lemma {:induction false} FilterPlaces<T>(s: seq<T>, p: T -> bool) returns (at: seq<nat>)
    ensures PlacesOf(s, p, Filter(s, p), at)
  {
    hide *;
    if s == [] {
      at := [];
      NoPlaces(p);
    } else {
      var init, last := s[..|s| - 1], s[|s| - 1];
      assert init + [last] == s;
      at := FilterPlaces(init, p);
      FilterOneMore(init, last, p);
      PlacesOneMore(init, last, p, Filter(init, p), at);
      if p(last) {
        at := at + [|init|];
      }
    }
  }

  /** A filtered sequence keeps the order: it is the items at increasing positions. */
  lemma FilterIsSubsequence<T>(s: seq<T>, p: T -> bool) returns (at: seq<nat>)
    ensures |at| == |Filter(s, p)|
    ensures forall k | 0 <= k < |at| :: at[k] < |s| && s[at[k]] == Filter(s, p)[k]
    ensures forall j, k | 0 <= j < k < |at| :: at[j] < at[k]
  {
    hide Filter;
    at := FilterPlaces(s, p);
  }

  lemma {:induction false} FilterCount<T>(s: seq<T>, p: T -> bool)
    ensures |Filter(s, p)| == |s| <==> forall x | x in s :: p(x)
  {
    if s != [] {
      var init, last := s[..|s| - 1], s[|s| - 1];
      assert init + [last] == s && last in s;
      FilterOneMore(init, last, p);
      hide Filter;
      FilterCount(init, p);
    }
  }

  /** What satisfies a condition satisfies a second one, too, or does not. */
  lemma {:induction false} FilterSplits<T>(s: seq<T>, p: T -> bool, r: T -> bool, both: T -> bool, rest: T -> bool)
    requires forall x | x in s :: (both(x) <==> p(x) && r(x)) && (rest(x) <==> p(x) && !r(x))
    ensures |Filter(s, p)| == |Filter(s, both)| + |Filter(s, rest)|
  {
    if s != [] {
      var init, last := s[..|s| - 1], s[|s| - 1];
      assert init + [last] == s && last in s;
      FilterOneMore(init, last, p);
      FilterOneMore(init, last, both);
      FilterOneMore(init, last, rest);
      hide Filter;
      FilterSplits(init, p, r, both, rest);
    }
  }

  lemma {:induction false} FilterTwice<T>(s: seq<T>, p: T -> bool, r: T -> bool, both: T -> bool)
    requires forall x | x in s :: both(x) <==> p(x) && r(x)
    ensures Filter(Filter(s, p), r) == Filter(s, both)
  {
    if s != [] {
      var init, last := s[..|s| - 1], s[|s| - 1];
      assert init + [last] == s && last in s;
      FilterOneMore(init, last, p);
      FilterOneMore(init, last, both);
      FilterOneMore(Filter(init, p), last, r);
      hide Filter;
      FilterTwice(init, p, r, both);
    }
  }

  /** Increasing positions of items that satisfy the condition. */
  ghost predicate Positions<T>(s: seq<T>, p: T -> bool, at: seq<nat>) {
    (forall k | 0 <= k < |at| :: at[k] < |s| && p(s[at[k]])) && (forall j, k | 0 <= j < k < |at| :: at[j] < at[k])
  }

  lemma PositionsBefore<T>(init: seq<T>, last: T, p: T -> bool, at: seq<nat>)
    requires Positions(init + [last], p, at)
    ensures if at != [] && at[|at| - 1] == |init| then p(last) && Positions(init, p, at[..|at| - 1]) else Positions(init, p, at)
  {
    if at != [] && at[|at| - 1] != |init| {
      assert forall k | 0 <= k < |at| :: at[k] <= at[|at| - 1];
    }
  }

  lemma PositionsInside<T>(s: seq<T>, p: T -> bool, at: seq<nat>)
    requires Positions(s, p, at)
    ensures at != [] ==> |s| > 0
  {
    if at != [] {
      assert at[0] < |s|;
    }
  }

  /** At least as many items are kept as there are such positions. */
  lemma {:induction false} FilterHasPositions<T>(s: seq<T>, p: T -> bool, at: seq<nat>)
    requires Positions(s, p, at)
    ensures |at| <= |Filter(s, p)|
  {
    hide *;
    PositionsInside(s, p, at);
    if s != [] {
      var init, last := s[..|s| - 1], s[|s| - 1];
      assert init + [last] == s;
      FilterOneMore(init, last, p);
      PositionsBefore(init, last, p, at);
      FilterHasPositions(init, p, if at != [] && at[|at| - 1] == |init| then at[..|at| - 1] else at);
    }
  }

  ghost predicate Three<T(!new)>(s: seq<T>, p: T -> bool) {
    exists i, j, k :: 0 <= i < j < k < |s| && p(s[i]) && p(s[j]) && p(s[k])
  }

  lemma FilterHasThree<T(!new)>(s: seq<T>, p: T -> bool)
    ensures |Filter(s, p)| >= 3 <==> Three(s, p)
  {
    hide *;
    if |Filter(s, p)| >= 3 {
      ThreeKept(s, p);
    }
    if Three(s, p) {
      ThreeAreKept(s, p);
    }
  }

  lemma ThreeKept<T(!new)>(s: seq<T>, p: T -> bool)
    requires |Filter(s, p)| >= 3
    ensures Three(s, p)
  {
    var kept := Filter(s, p);
    assert kept[0] in kept && kept[1] in kept && kept[2] in kept;
    hide Filter;
    var at := FilterIsSubsequence(s, p);
    assert at[0] < at[1] < at[2];
  }

  lemma ThreeAreKept<T(!new)>(s: seq<T>, p: T -> bool)
    requires Three(s, p)
    ensures |Filter(s, p)| >= 3
  {
    hide Filter;
    var i: nat, j: nat, k: nat :| i < j < k < |s| && p(s[i]) && p(s[j]) && p(s[k]);
    FilterHasPositions(s, p, [i, j, k]);
  }
}
