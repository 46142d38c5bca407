/** Dependency graphs of shared objects (DSOs) and reachability in them. */
module DepGraph {
  import opened Basics

  /** g[u] lists the direct dependencies of DSO u in order; repetitions and cycles are allowed. */
  type Graph = seq<seq<nat>>

  /** Every dependency is itself a DSO of the graph. */
  ghost predicate WellFormed(g: Graph) {
    forall u, k :: 0 <= u < |g| && 0 <= k < |g[u]| ==> g[u][k] < |g|
  }

  /** d is a direct dependency of u. */
  ghost predicate Edge(g: Graph, u: nat, d: nat) {
    u < |g| && d in g[u]
  }

  ghost predicate IsPath(g: Graph, path: seq<nat>) {
    && |path| > 0
    && (forall i :: 0 <= i < |path| ==> path[i] < |g|)
    && (forall i :: 0 <= i < |path| - 1 ==> path[i + 1] in g[path[i]])
  }

  ghost predicate Connects(g: Graph, path: seq<nat>, u: nat, v: nat) {
    IsPath(g, path) && path[0] == u && path[|path| - 1] == v
  }

  /** v is u itself or an indirect dependency of u. */
  ghost predicate Reaches(g: Graph, u: nat, v: nat) {
    exists path :: Connects(g, path, u, v)
  }

  /** v is a direct or indirect dependency of u (u itself only when it lies on a cycle). */
  ghost predicate DependsOn(g: Graph, u: nat, v: nat)
    requires u < |g|
  {
    exists w :: w in g[u] && Reaches(g, w, v)
  }

  lemma ReachesSelf(g: Graph, u: nat)
    requires u < |g|
    ensures Reaches(g, u, u)
  {
    assert Connects(g, [u], u, u);
  }

  lemma ReachesStep(g: Graph, u: nat, v: nat, w: nat)
    requires WellFormed(g) && v < |g| && Reaches(g, u, v) && w in g[v]
    ensures Reaches(g, u, w)
  {
    var path :| Connects(g, path, u, v);
    assert Connects(g, path + [w], u, w);
  }

  /** A set closed under direct dependencies holds everything reachable from its members. */
  lemma {:induction false} ClosedSetHoldsReachable(g: Graph, s: set<nat>, u: nat, v: nat)
    requires u in s && Reaches(g, u, v)
    requires forall x, y :: x in s && x < |g| && y in g[x] ==> y in s
    ensures v in s
  {
    var path :| Connects(g, path, u, v);
    var i := 0;
    while i < |path| - 1
      invariant 0 <= i < |path| && path[i] in s
    {
      assert path[i + 1] in g[path[i]];
      i := i + 1;
    }
  }

  lemma {:induction false} DistinctFits<T(!new)>(s: seq<T>, bound: set<T>)
    requires Distinct(s) && (forall x :: x in s ==> x in bound)
    ensures |s| <= |bound|
  {
    if |s| > 0 {
      var last := s[|s| - 1];
      assert last in bound;
      forall x | x in s[..|s| - 1] ensures x in bound - {last} { }
      DistinctFits(s[..|s| - 1], bound - {last});
    }
  }
}
