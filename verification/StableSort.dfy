/** Stable sorting of sequences, as Array.prototype.sort does it. */
module StableSort {
  import opened Sequences

  /** Place `x` in front of the first element that does not come strictly before it. */
  function Insert<T>(before: (T, T) -> bool, x: T, s: seq<T>): (r: seq<T>)
    ensures multiset(r) == multiset{x} + multiset(s)
  {
    if s == [] then [x]
    else if before(s[0], x) then
      assert s == [s[0]] + s[1..];
      [s[0]] + Insert(before, x, s[1..])
    else [x] + s
  }

  function Sort<T>(before: (T, T) -> bool, s: seq<T>): (r: seq<T>)
    ensures multiset(r) == multiset(s)
    ensures |r| == |s|
  {
    if s == [] then []
    else
      assert s == [s[0]] + s[1..];
      var r := Insert(before, s[0], Sort(before, s[1..]));
      assert |r| == |multiset(r)| == |multiset(s)| == |s|;
      r
  }

  /** "Comes strictly before" compares ranks: it is asymmetric and incomparability is transitive. */
  ghost predicate WeakOrder<T(!new)>(before: (T, T) -> bool) {
    && (forall x, y :: before(x, y) ==> !before(y, x))
    && (forall x, y, z :: !before(y, x) && !before(z, y) ==> !before(z, x))
  }

  ghost predicate Sorted<T>(before: (T, T) -> bool, s: seq<T>) {
    forall i, j | 0 <= i < j < |s| :: !before(s[j], s[i])
  }

  lemma {:induction false} InsertSorted<T(!new)>(before: (T, T) -> bool, x: T, s: seq<T>)
    requires WeakOrder(before) && Sorted(before, s)
    ensures Sorted(before, Insert(before, x, s))
  {
    if s != [] && before(s[0], x) {
      InsertSorted(before, x, s[1..]);
      var r := Insert(before, x, s[1..]);
      forall j | 0 <= j < |r|
        ensures !before(r[j], s[0])
      {
        assert r[j] in multiset(r);
        assert s[1..][..] == s[1..];
      }
    }
  }

  lemma {:induction false} SortSorted<T(!new)>(before: (T, T) -> bool, s: seq<T>)
    requires WeakOrder(before)
    ensures Sorted(before, Sort(before, s))
  {
    if s != [] {
      SortSorted(before, s[1..]);
      InsertSorted(before, s[0], Sort(before, s[1..]));
    }
  }

  lemma SortKeeps<T(!new)>(before: (T, T) -> bool, s: seq<T>)
    ensures forall x :: x in Sort(before, s) <==> x in s
  {
    forall x
      ensures x in Sort(before, s) <==> x in s
    {
      assert x in multiset(s) <==> x in multiset(Sort(before, s));
    }
  }

  /** The places that the sorted items come from: every place once, and items that compare equal in their old order. */
  ghost predicate StablyFrom<T(!new)>(before: (T, T) -> bool, s: seq<T>, sorted: seq<T>, at: seq<nat>) {
    && |at| == |sorted| == |s| && (forall k | 0 <= k < |at| :: at[k] < |s| && sorted[k] == s[at[k]])
    && (forall i: nat | i < |s| :: i in at)
    && (forall j, k | 0 <= j < k < |at| :: before(sorted[j], sorted[k]) || at[j] < at[k])
  }

  /** Where an inserted item goes: behind all those strictly before it at the front. */
  lemma {:induction false} InsertPlace<T(!new)>(before: (T, T) -> bool, x: T, s: seq<T>) returns (p: nat)
    ensures p <= |s| && Insert(before, x, s) == s[..p] + [x] + s[p..] && forall q | 0 <= q < p :: before(s[q], x)
  {
    if s == [] || !before(s[0], x) {
      p := 0;
    } else {
      var rest := InsertPlace(before, x, s[1..]);
      p := rest + 1;
      assert s[..p] == [s[0]] + s[1..][..rest] && s[p..] == s[1..][rest..];
    }
  }

  /** The places of the rest, one further on, with the first place at `p`. */
  function Shifted(at: seq<nat>, p: nat): (after: seq<nat>)
    requires p <= |at|
    ensures |after| == |at| + 1
    ensures forall k | 0 <= k < |after| :: after[k] == if k == p then 0 else at[if k < p then k else k - 1] + 1
  {
    seq(p, k requires 0 <= k < p => at[k] + 1) + [0] + seq(|at| - p, k requires 0 <= k < |at| - p => at[p + k] + 1)
  }

  lemma ShiftedHasAll(at: seq<nat>, p: nat, n: nat)
    requires p <= |at| && forall i: nat | i < n :: i in at
    ensures forall i: nat | i < n + 1 :: i in Shifted(at, p)
  {
    var after := Shifted(at, p);
    hide Shifted;
    forall i: nat | i < n + 1
      ensures i in after
    {
      if i == 0 {
        assert after[p] == 0;
      } else {
        var before: nat := i - 1;
        assert before in at;
        var k :| 0 <= k < |at| && at[k] == before;
        assert after[if k < p then k else k + 1] == i;
      }
    }
  }

  lemma InsertedFrom<T(!new)>(before: (T, T) -> bool, s: seq<T>, sorted: seq<T>, at: seq<nat>, p: nat, after: seq<T>)
    requires s != [] && StablyFrom(before, s[1..], sorted, at) && p <= |sorted|
    requires after == sorted[..p] + [s[0]] + sorted[p..] && forall q | 0 <= q < p :: before(sorted[q], s[0])
    ensures StablyFrom(before, s, after, Shifted(at, p))
  {
    var places := Shifted(at, p);
    ShiftedHasAll(at, p, |s| - 1);
    hide Shifted;
    forall k | 0 <= k < |places|
      ensures places[k] < |s| && after[k] == s[places[k]]
    {
      if k != p {
        assert after[k] == sorted[if k < p then k else k - 1];
      }
    }
    forall j, k | 0 <= j < k < |places|
      ensures before(after[j], after[k]) || places[j] < places[k]
    {
      if j != p {
        assert after[j] == sorted[if j < p then j else j - 1];
      }
      if k != p {
        assert after[k] == sorted[if k < p then k else k - 1];
      }
    }
  }

  /** Sorting is stable. */
  lemma {:induction false} SortIsStable<T(!new)>(before: (T, T) -> bool, s: seq<T>) returns (at: seq<nat>)
    ensures StablyFrom(before, s, Sort(before, s), at)
  {
    if s == [] {
      at := [];
    } else {
      var rest := SortIsStable(before, s[1..]);
      var p := InsertPlace(before, s[0], Sort(before, s[1..]));
      hide Insert, StablyFrom;
      StableLength(before, s[1..], Sort(before, s[1..]), rest);
      InsertedFrom(before, s, Sort(before, s[1..]), rest, p, Sort(before, s));
      at := Shifted(rest, p);
    }
  }

  lemma StableLength<T(!new)>(before: (T, T) -> bool, s: seq<T>, sorted: seq<T>, at: seq<nat>)
    requires StablyFrom(before, s, sorted, at)
    ensures |at| == |sorted| == |s|
  {
  }

  /** The first of the sorted items: none comes before it, and it comes before all that stood in front of it. */
  lemma FirstOfSort<T(!new)>(before: (T, T) -> bool, s: seq<T>) returns (m: nat)
    requires WeakOrder(before) && s != []
    ensures m < |s| && Sort(before, s)[0] == s[m]
    ensures forall k | 0 <= k < |s| :: !before(s[k], s[m])
    ensures forall k | 0 <= k < m :: before(s[m], s[k])
  {
    SortSorted(before, s);
    var sorted := Sort(before, s);
    hide Sort;
    var at := SortIsStable(before, s);
    m := at[0];
    forall k: nat | k < |s|
      ensures !before(s[k], s[m]) && (k < m ==> before(s[m], s[k]))
    {
      assert k in at;
      var q :| 0 <= q < |at| && at[q] == k;
      if q > 0 {
        assert !before(sorted[q], sorted[0]);
      }
    }
  }

  /** The same for the items that satisfy a condition. */
  lemma FirstOfSortedFilter<T(!new)>(before: (T, T) -> bool, s: seq<T>, p: T -> bool) returns (i: nat)
    requires WeakOrder(before) && Filter(s, p) != []
    ensures i < |s| && p(s[i]) && Sort(before, Filter(s, p))[0] == s[i]
    ensures forall k | 0 <= k < |s| && p(s[k]) :: !before(s[k], s[i]) && (k < i ==> before(s[i], s[k]))
  {
    var kept := Filter(s, p);
    var m := FirstOfSort(before, kept);
    hide Sort;
    var at := FilterPlaces(s, p);
    i := at[m];
    assert kept[m] in kept;
    forall k: nat | k < |s| && p(s[k])
      ensures !before(s[k], s[i]) && (k < i ==> before(s[i], s[k]))
    {
      assert k in at;
      var j :| 0 <= j < |at| && at[j] == k;
      assert k < i ==> j < m;
    }
  }
}
