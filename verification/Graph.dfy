/** Finite directed graphs given by an adjacency map, shared by the import graph of the
    modules and the dependency graph of one module's providers.  A node without an entry
    has no outgoing edge. */
module Graph {
  type Edges<T(==)> = map<T, set<T>>

  ghost predicate IsPath<T(!new)>(g: Edges<T>, path: seq<T>) {
    && |path| > 0
    && forall i :: 0 <= i < |path| - 1 ==> path[i] in g && path[i + 1] in g[path[i]]
  }

  ghost predicate Connects<T(!new)>(g: Edges<T>, path: seq<T>, a: T, b: T) {
    IsPath(g, path) && path[0] == a && path[|path| - 1] == b
  }

  ghost predicate Reaches<T(!new)>(g: Edges<T>, a: T, b: T) {
    exists path :: Connects(g, path, a, b)
  }

  /** A cycle is a path of at least one edge back to its own start. */
  ghost predicate IsCycle<T(!new)>(g: Edges<T>, path: seq<T>) {
    IsPath(g, path) && |path| > 1 && path[0] == path[|path| - 1]
  }

  ghost predicate Acyclic<T(!new)>(g: Edges<T>) {
    forall path: seq<T> :: !IsCycle(g, path)
  }

  ghost predicate ClosedUnder<T(!new)>(g: Edges<T>, s: set<T>) {
    forall x, y :: x in s && x in g && y in g[x] ==> y in s
  }

  /** The nodes of the finite universe `u` reachable from `a`. */
  ghost function Closure<T(!new)>(g: Edges<T>, u: set<T>, a: T): set<T> {
    set x | x in u && Reaches(g, a, x)
  }

  lemma ReachesSelf<T(!new)>(g: Edges<T>, a: T)
    ensures Reaches(g, a, a)
  {
    assert Connects(g, [a], a, a);
  }

  lemma ReachesPrepend<T(!new)>(g: Edges<T>, a: T, b: T, c: T)
    requires a in g && b in g[a] && Reaches(g, b, c)
    ensures Reaches(g, a, c)
  {
    var path :| Connects(g, path, b, c);
    assert Connects(g, [a] + path, a, c);
  }

  lemma ReachesAppend<T(!new)>(g: Edges<T>, a: T, b: T, c: T)
    requires Reaches(g, a, b) && b in g && c in g[b]
    ensures Reaches(g, a, c)
  {
    var path :| Connects(g, path, a, b);
    assert Connects(g, path + [c], a, c);
  }

  lemma ReachesInLarger<T(!new)>(g: Edges<T>, h: Edges<T>, a: T, b: T)
    requires Reaches(g, a, b) && g.Keys <= h.Keys && forall x :: x in g ==> g[x] <= h[x]
    ensures Reaches(h, a, b)
  {
    var path :| Connects(g, path, a, b);
    assert Connects(h, path, a, b);
  }

  lemma {:induction false} PathStaysInside<T(!new)>(g: Edges<T>, s: set<T>, path: seq<T>, n: nat)
    requires ClosedUnder(g, s) && IsPath(g, path) && path[0] in s && n < |path|
    ensures path[n] in s
  {
    if n > 0 {
      PathStaysInside(g, s, path, n - 1);
      assert path[n] in g[path[n - 1]];
    }
  }

  /** A set closed under the edges holds everything reachable from its members. */
  lemma ClosedHoldsReachable<T(!new)>(g: Edges<T>, s: set<T>, a: T, b: T)
    requires ClosedUnder(g, s) && a in s && Reaches(g, a, b)
    ensures b in s
  {
    var path :| Connects(g, path, a, b);
    PathStaysInside(g, s, path, |path| - 1);
  }

  lemma CycleThroughEdge<T(!new)>(g: Edges<T>, a: T, b: T)
    requires a in g && b in g[a] && Reaches(g, b, a)
    ensures exists path :: IsCycle(g, path) && path[0] == a && path[1] == b
  {
    var path :| Connects(g, path, b, a);
    assert IsCycle(g, [a] + path);
  }

  lemma {:induction false} SubsetSize<T(!new)>(a: set<T>, b: set<T>)
    requires a <= b
    ensures |a| <= |b|
  {
    if a != {} {
      var x :| x in a;
      SubsetSize(a - {x}, b - {x});
    }
  }

  /** Following an edge of an acyclic graph loses at least the node one left. */
  lemma ClosureShrinks<T(!new)>(g: Edges<T>, u: set<T>, a: T, b: T)
    requires Acyclic(g) && a in u && a in g && b in g[a]
    ensures |Closure(g, u, b)| < |Closure(g, u, a)|
  {
    var big, small := Closure(g, u, a), Closure(g, u, b);
    forall x | x in small ensures x in big { ReachesPrepend(g, a, b, x); }
    ReachesSelf(g, a);
    if Reaches(g, b, a) { CycleThroughEdge(g, a, b); }
    SubsetSize(small, big - {a});
  }

  lemma {:induction false} NoInfiniteDescent<T(!new)>(g: Edges<T>, s: set<T>, x: T)
    requires Acyclic(g) && x in s && g.Keys == s
    requires forall y :: y in s ==> g[y] != {} && g[y] <= s
    ensures false
    decreases |Closure(g, s, x)|
  {
    var y :| y in g[x];
    ClosureShrinks(g, s, x, y);
    NoInfiniteDescent(g, s, y);
  }

  /** The pigeonhole step: in a nonempty finite set in which every node has a successor
      there is a cycle that stays inside the set. */
  lemma StuckSetHasCycle<T(!new)>(g: Edges<T>, s: set<T>) returns (path: seq<T>)
    requires s != {}
    requires forall x :: x in s ==> x in g && g[x] * s != {}
    ensures IsCycle(g, path) && forall x :: x in path ==> x in s
  {
    var inner := map x | x in s :: g[x] * s;
    if Acyclic(inner) {
      var x :| x in s;
      NoInfiniteDescent(inner, s, x);
    }
    path :| IsCycle(inner, path);
    assert forall i :: 0 <= i < |path| - 1 ==> path[i] in s && path[i + 1] in g[path[i]] * s;
  }

  lemma AcyclicLeavesNoneStuck<T(!new)>(g: Edges<T>, s: set<T>)
    requires Acyclic(g) && forall x :: x in s ==> x in g && g[x] * s != {}
    ensures s == {}
  {
    if s != {} {
      var path := StuckSetHasCycle(g, s);
    }
  }

  ghost function Elements<T(!new)>(s: seq<T>): (r: set<T>)
    ensures forall x :: x in r <==> x in s
  {
    set x | x in s
  }
}
