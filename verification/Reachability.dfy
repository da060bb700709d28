/**
 Reachability in a graph given by its open nodes and its adjacency. Both floods of the
 raster recognizer (the 8-connected labelling and the 4-connected exterior flood) are
 proved against `Joined`.
 */
module Reachability {

  datatype Graph<!T> = Graph(open: T -> bool, adjacent: (T, T) -> bool)

  ghost predicate Symmetric<T(!new)>(g: Graph<T>) {
    forall x, y :: g.adjacent(x, y) ==> g.adjacent(y, x)
  }

  /** A non-empty walk over open nodes, each adjacent to its predecessor. */
  ghost predicate IsPath<T(!new)>(g: Graph<T>, p: seq<T>) {
    && |p| > 0
    && (forall k | 0 <= k < |p| :: g.open(p[k]))
    && (forall k | 0 < k < |p| :: g.adjacent(p[k - 1], p[k]))
  }

  ghost predicate PathBetween<T(!new)>(g: Graph<T>, p: seq<T>, s: T, t: T) {
    IsPath(g, p) && p[0] == s && p[|p| - 1] == t
  }

  ghost predicate Joined<T(!new)>(g: Graph<T>, s: T, t: T) {
    exists p :: PathBetween(g, p, s, t)
  }

  lemma JoinedSelf<T(!new)>(g: Graph<T>, s: T)
    requires g.open(s)
    ensures Joined(g, s, s)
  {
    assert PathBetween(g, [s], s, s);
  }

  lemma JoinedOpen<T(!new)>(g: Graph<T>, s: T, t: T)
    requires Joined(g, s, t)
    ensures g.open(s) && g.open(t)
  {
    var p :| PathBetween(g, p, s, t);
  }

  lemma JoinedStep<T(!new)>(g: Graph<T>, s: T, t: T, u: T)
    requires Joined(g, s, t) && g.open(u) && g.adjacent(t, u)
    ensures Joined(g, s, u)
  {
    var p :| PathBetween(g, p, s, t);
    assert PathBetween(g, p + [u], s, u);
  }

  /** A property that no open step can leave holds wherever the start reaches. */
  lemma {:induction false} JoinedStays<T(!new)>(g: Graph<T>, inside: T -> bool, s: T, t: T)
    requires Joined(g, s, t) && inside(s)
    requires forall x, y :: inside(x) && g.open(x) && g.open(y) && g.adjacent(x, y) ==> inside(y)
    ensures inside(t)
  {
    var p :| PathBetween(g, p, s, t);
    PathStays(g, inside, p, |p| - 1);
  }

  lemma {:induction false} PathStays<T(!new)>(g: Graph<T>, inside: T -> bool, p: seq<T>, k: nat)
    requires IsPath(g, p) && k < |p| && inside(p[0])
    requires forall x, y :: inside(x) && g.open(x) && g.open(y) && g.adjacent(x, y) ==> inside(y)
    ensures inside(p[k])
  {
    if k > 0 {
      PathStays(g, inside, p, k - 1);
      assert g.adjacent(p[k - 1], p[k]);
    }
  }

  lemma JoinedSymmetric<T(!new)>(g: Graph<T>, s: T, t: T)
    requires Symmetric(g) && Joined(g, s, t)
    ensures Joined(g, t, s)
  {
    var p :| PathBetween(g, p, s, t);
    var q := seq(|p|, k requires 0 <= k < |p| => p[|p| - 1 - k]);
    forall k | 0 < k < |q|
      ensures g.adjacent(q[k - 1], q[k])
    {
      assert g.adjacent(p[|p| - 1 - k], p[|p| - 1 - k + 1]);
    }
    assert PathBetween(g, q, t, s);
  }

  lemma JoinedTransitive<T(!new)>(g: Graph<T>, s: T, t: T, u: T)
    requires Joined(g, s, t) && Joined(g, t, u)
    ensures Joined(g, s, u)
  {
    var p :| PathBetween(g, p, s, t);
    var q :| PathBetween(g, q, t, u);
    var r := p + q[1..];
    forall k | 0 < k < |r|
      ensures g.adjacent(r[k - 1], r[k])
    {
      if k >= |p| {
        assert r[k] == q[k - |p| + 1];
        assert r[k - 1] == q[k - |p|];
      }
    }
    assert PathBetween(g, r, s, u);
  }
}
