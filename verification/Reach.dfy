/** Reachability in a finite directed graph, by explicit paths. */
module Reach {

  type Graph<N> = map<N, set<N>>

  ghost predicate IsPath<N>(g: Graph<N>, p: seq<N>) {
    |p| > 0 && forall i :: 0 <= i < |p| - 1 ==> p[i] in g && p[i + 1] in g[p[i]]
  }

  ghost predicate Joins<N>(g: Graph<N>, p: seq<N>, a: N, b: N) {
    IsPath(g, p) && p[0] == a && p[|p| - 1] == b
  }

  ghost predicate Reaches<N(!new)>(g: Graph<N>, a: N, b: N) {
    exists p :: Joins(g, p, a, b)
  }

  lemma {:induction false} ReachesSelf<N(!new)>(g: Graph<N>, a: N)
    ensures Reaches(g, a, a)
  {
    assert Joins(g, [a], a, a);
  }

  lemma {:induction false} ReachesStep<N(!new)>(g: Graph<N>, a: N, b: N, c: N)
    requires Reaches(g, a, b) && b in g && c in g[b]
    ensures Reaches(g, a, c)
  {
    var p :| Joins(g, p, a, b);
    assert Joins(g, p + [c], a, c);
  }

  lemma {:induction false} ReachesAfter<N(!new)>(g: Graph<N>, a: N, b: N, c: N)
    requires a in g && b in g[a] && Reaches(g, b, c)
    ensures Reaches(g, a, c)
  {
    var p :| Joins(g, p, b, c);
    var q := [a] + p;
    forall i | 0 <= i < |q| - 1
      ensures q[i] in g && q[i + 1] in g[q[i]]
    {
      if i > 0 {
        assert q[i] == p[i - 1] && q[i + 1] == p[i];
      }
    }
    assert Joins(g, q, a, c);
  }

  lemma {:induction false} ReachesFrom<N(!new)>(g: Graph<N>, a: N, b: N)
    requires Reaches(g, a, b)
    ensures a == b || exists c :: a in g && c in g[a] && Reaches(g, c, b)
  {
    var p :| Joins(g, p, a, b);
    if |p| > 1 {
      forall i | 0 <= i < |p[1..]| - 1
        ensures p[1..][i] in g && p[1..][i + 1] in g[p[1..][i]]
      {
        assert p[i + 1] in g && p[i + 2] in g[p[i + 1]];
      }
      assert p[0] in g && p[1] in g[p[0]];
      assert Joins(g, p[1..], p[1], b);
    }
  }

  lemma {:induction false} ReachesThrough<N(!new)>(g: Graph<N>, a: N, b: N, c: N)
    requires Reaches(g, a, b) && Reaches(g, b, c)
    ensures Reaches(g, a, c)
  {
    var p :| Joins(g, p, a, b);
    var q :| Joins(g, q, b, c);
    var r := p + q[1..];
    forall i | 0 <= i < |r| - 1 ensures r[i] in g && r[i + 1] in g[r[i]] {
      if i < |p| - 1 {
        assert p[i] in g && p[i + 1] in g[p[i]];
      } else {
        var j := i - (|p| - 1);
        assert q[j] in g && q[j + 1] in g[q[j]];
        assert r[i] == q[j] && r[i + 1] == q[j + 1];
      }
    }
    assert Joins(g, r, a, c);
  }

  /** A path stays a path where there are more edges. */
  lemma {:induction false} ReachesMore<N(!new)>(g: Graph<N>, h: Graph<N>, a: N, b: N)
    requires Reaches(g, a, b) && forall n :: n in g ==> n in h && g[n] <= h[n]
    ensures Reaches(h, a, b)
  {
    var p :| Joins(g, p, a, b);
    forall i | 0 <= i < |p| - 1 ensures p[i] in h && p[i + 1] in h[p[i]] {
      assert p[i] in g && p[i + 1] in g[p[i]];
    }
    assert Joins(h, p, a, b);
  }

  ghost predicate ClosedSet<N>(g: Graph<N>, s: set<N>) {
    forall a :: a in s && a in g ==> g[a] <= s
  }

  /** A closed set contains whatever its elements reach. */
  lemma {:induction false} StaysInside<N(!new)>(g: Graph<N>, s: set<N>, a: N, b: N)
    requires ClosedSet(g, s) && a in s && Reaches(g, a, b)
    ensures b in s
  {
    var p :| Joins(g, p, a, b);
    var i := 0;
    while i < |p| - 1
      invariant 0 <= i < |p| && p[i] in s
    {
      assert p[i] in g && p[i + 1] in g[p[i]];
      i := i + 1;
    }
  }

  lemma {:induction false} SubsetSize<N>(a: set<N>, b: set<N>)
    requires a <= b
    ensures |a| <= |b|
  {
    if a != {} {
      var x :| x in a;
      SubsetSize(a - {x}, b - {x});
    }
  }

  function Elements<N>(s: seq<N>): set<N> {
    set x | x in s
  }
}
