/**
 The order in which constructors run: a depth-first traversal of the dependency graph that
 ignores circular dependencies. This module holds the traversal's invariant on values;
 CtorQueue.dfy runs it on the shared buffer.
 */
module CtorOrder {
  import opened Basics
  import opened DepGraph

  /** What the constructor queue of root promises its reader. */
  ghost predicate IsCtorOrder(g: Graph, root: nat, order: seq<nat>) {
    && Distinct(order)
    && (forall v: nat :: v in order <==> Reaches(g, root, v))
    && (forall i, d :: 0 <= i < |order| && Edge(g, order[i], d) && !Reaches(g, d, order[i])
                       ==> d in order[..i])
  }

  /**
   order holds the finished DSOs and active the path being explored, innermost first.
   next[v] counts the dependencies of v already looked at.
   */
  ghost predicate Exploring(g: Graph, root: nat, order: seq<nat>, active: seq<nat>, mark: seq<bool>, next: seq<nat>) {
    && WellFormed(g) && |mark| == |next| == |g|
    && Distinct(order + active)
    && (forall v :: v in order + active ==> v < |g| && Reaches(g, root, v))
    && (forall v: nat :: v < |g| && Reaches(g, root, v) ==> (mark[v] <==> v in order + active))
    && (forall i, j :: 0 <= i <= j < |active| ==> Reaches(g, active[j], active[i]))
    && (forall v :: v in active ==> next[v] <= |g[v]| && forall k :: 0 <= k < next[v] ==> g[v][k] in order + active)
    && (forall i, d :: 0 <= i < |order| && Edge(g, order[i], d)
                       ==> d in order + active && (d in order[..i] || Reaches(g, d, order[i])))
    && root in order + active
  }

  lemma Begin(g: Graph, root: nat, mark: seq<bool>, next: seq<nat>)
    requires WellFormed(g) && root < |g| && |mark| == |next| == |g|
    requires forall v: nat :: v < |g| && Reaches(g, root, v) ==> v == root || !mark[v]
    ensures Exploring(g, root, [], [root], mark[root := true], next[root := 0])
  {
    ReachesSelf(g, root);
    assert [] + [root] == [root];
  }

  lemma Members(g: Graph, root: nat, order: seq<nat>, active: seq<nat>, mark: seq<bool>, next: seq<nat>)
    requires Exploring(g, root, order, active, mark, next)
    ensures forall v :: v in order + active ==> v < |g| == |mark| == |next| && Reaches(g, root, v)
    ensures forall v :: v in active ==> v < |g| == |next| && next[v] <= |g[v]| && Reaches(g, root, v)
  {
    assert forall v :: v in active ==> v in order + active;
  }

  /** The next dependency of the innermost DSO is already marked: step over it. */
  lemma StepOver(g: Graph, root: nat, order: seq<nat>, active: seq<nat>, mark: seq<bool>, next: seq<nat>)
    requires Exploring(g, root, order, active, mark, next)
    requires |active| > 0 && next[active[0]] < |g[active[0]]| && mark[g[active[0]][next[active[0]]]]
    ensures Exploring(g, root, order, active, mark, next[active[0] := next[active[0]] + 1])
  {
    var p := active[0];
    assert p in order + active;
    ReachesStep(g, root, p, g[p][next[p]]);
  }

  /** The next dependency of the innermost DSO is not marked yet: explore it. */
  lemma Descend(g: Graph, root: nat, order: seq<nat>, active: seq<nat>, mark: seq<bool>, next: seq<nat>)
    requires Exploring(g, root, order, active, mark, next)
    requires |active| > 0 && next[active[0]] < |g[active[0]]| && !mark[g[active[0]][next[active[0]]]]
    ensures var d := g[active[0]][next[active[0]]];
      Exploring(g, root, order, [d] + active, mark[d := true], next[d := 0])
  {
    var p := active[0];
    var d := g[p][next[p]];
    assert p in order + active;
    ReachesStep(g, root, p, d);
    ReachesSelf(g, d);
    var deeper := [d] + active;
    assert d !in order + active;
    forall v ensures v in order + deeper <==> v == d || v in order + active { }
    forall i, d' | 0 <= i < |order| && Edge(g, order[i], d')
      ensures d' in order + deeper && (d' in order[..i] || Reaches(g, d', order[i])) { }
    forall v, k | v in deeper && 0 <= k < next[d := 0][v] ensures g[v][k] in order + deeper {
      if v != d { assert v in active; }
    }
    forall i, j | 0 <= i < j < |order + deeper| ensures (order + deeper)[i] != (order + deeper)[j] {
      var all := order + active;
      assert (order + deeper)[i] == if i < |order| then all[i] else if i == |order| then d else all[i - 1];
      assert (order + deeper)[j] == if j < |order| then all[j] else if j == |order| then d else all[j - 1];
    }
    forall i, j | 0 <= i <= j < |deeper| ensures Reaches(g, deeper[j], deeper[i]) {
      if i == 0 && j > 0 {
        assert Reaches(g, active[j - 1], active[0]);
        ReachesStep(g, active[j - 1], p, d);
      }
    }
  }

  /** All dependencies of the innermost DSO are done: it goes to the output. */
  lemma Finish(g: Graph, root: nat, order: seq<nat>, active: seq<nat>, mark: seq<bool>, next: seq<nat>)
    requires Exploring(g, root, order, active, mark, next)
    requires |active| > 0 && next[active[0]] == |g[active[0]]|
    ensures Exploring(g, root, order + [active[0]], active[1..], mark, next)
  {
    var p := active[0];
    var order' := order + [p];
    assert order + active == order' + active[1..];
    assert p in active && p in order + active;
    forall i, d | 0 <= i < |order'| && Edge(g, order'[i], d)
      ensures d in order + active && (d in order'[..i] || Reaches(g, d, order'[i]))
    {
      if i == |order| {
        var k :| 0 <= k < |g[p]| && g[p][k] == d;
        assert g[p][k] in order + active;
        if d !in order {
          var j :| 0 <= j < |active| && active[j] == d;
          assert Reaches(g, active[j], active[0]);
        }
        assert order'[..i] == order;
      } else {
        assert order'[..i] == order[..i] && order'[i] == order[i];
      }
    }
  }

  lemma Done(g: Graph, root: nat, order: seq<nat>, mark: seq<bool>, next: seq<nat>)
    requires Exploring(g, root, order, [], mark, next)
    ensures IsCtorOrder(g, root, order)
    ensures forall v: nat :: v in order <==> Reaches(g, root, v)
    ensures forall v :: v in order ==> v < |g|
  {
    assert order + [] == order;
    var finished := set v | v in order;
    forall i, d | 0 <= i < |order| && Edge(g, order[i], d) && !Reaches(g, d, order[i]) ensures d in order[..i] {
      assert order[i] in order + [];
      assert d in order + [];
    }
    forall v: nat | Reaches(g, root, v) ensures v in order {
      forall x, y | x in finished && x < |g| && y in g[x] ensures y in finished {
        var i :| 0 <= i < |order| && order[i] == x;
        assert Edge(g, order[i], y);
      }
      ClosedSetHoldsReachable(g, finished, root, v);
    }
  }

  /** A traversal never holds more DSOs than any set containing all that root reaches. */
  lemma FitsIn(g: Graph, root: nat, order: seq<nat>, active: seq<nat>, mark: seq<bool>, next: seq<nat>, bound: set<nat>)
    requires Exploring(g, root, order, active, mark, next)
    requires forall v: nat :: Reaches(g, root, v) ==> v in bound
    ensures |order| + |active| <= |bound|
  {
    DistinctFits(order + active, bound);
  }

  // ---------------------------------------------------------------------------------------------
  // The traversal as a recursive function
  // ---------------------------------------------------------------------------------------------

  datatype Walk = Walk(mark: seq<bool>, order: seq<nat>)

  /** How many DSOs are not marked. */
  ghost function Free(mark: seq<bool>): nat {
    if mark == [] then 0 else Free(mark[..|mark| - 1]) + if mark[|mark| - 1] then 0 else 1
  }

  lemma {:induction false} MarkingFrees(mark: seq<bool>, d: nat)
    requires d < |mark| && !mark[d]
    ensures Free(mark[d := true]) < Free(mark)
  {
    var front := mark[..|mark| - 1];
    if d < |front| {
      MarkingFrees(front, d);
      assert mark[d := true][..|mark| - 1] == front[d := true];
    } else {
      assert mark[d := true][..|mark| - 1] == front;
    }
  }

  /** Explores the dependencies of u from the n-th on, each that is not marked with all behind it, and then puts u last. */
  ghost function Explore(g: Graph, u: nat, n: nat, w: Walk): (r: Walk)
    requires WellFormed(g) && u < |g| == |w.mark|
    ensures |r.mark| == |g| && Free(r.mark) <= Free(w.mark)
    ensures forall v :: 0 <= v < |g| && w.mark[v] ==> r.mark[v]
    decreases Free(w.mark), |g[u]| - n
  {
    if n >= |g[u]| then Walk(w.mark, w.order + [u])
    else
      var d := g[u][n];
      if w.mark[d] then Explore(g, u, n + 1, w)
      else
        MarkingFrees(w.mark, d);
        Explore(g, u, n + 1, Explore(g, d, 0, Walk(w.mark[d := true], w.order)))
  }

  ghost predicate Bounded(s: seq<nat>, n: nat) {
    forall i :: 0 <= i < |s| ==> s[i] < n
  }

  /** What is left to do for the DSOs of a stack, innermost first. */
  ghost function Rest(g: Graph, active: seq<nat>, next: seq<nat>, w: Walk): Walk
    requires WellFormed(g) && |w.mark| == |next| == |g| && Bounded(active, |g|)
    decreases |active|
  {
    if active == [] then w else Rest(g, active[1..], next, Explore(g, active[0], next[active[0]], w))
  }

  /** The order of a depth-first traversal from root in which nothing is marked before. */
  ghost function DepthFirst(g: Graph, root: nat): seq<nat>
    requires WellFormed(g) && root < |g|
  {
    Explore(g, root, 0, Walk(seq(|g|, v => v == root), [])).order
  }

  lemma {:induction false} RestSame(g: Graph, active: seq<nat>, next: seq<nat>, next': seq<nat>, w: Walk)
    requires WellFormed(g) && |w.mark| == |next| == |next'| == |g| && Bounded(active, |g|)
    requires forall i :: 0 <= i < |active| ==> next'[active[i]] == next[active[i]]
    ensures Rest(g, active, next', w) == Rest(g, active, next, w)
    decreases |active|
  {
    if active != [] {
      RestSame(g, active[1..], next, next', Explore(g, active[0], next[active[0]], w));
    }
  }

  /** Stepping over a marked dependency, descending to one that is not, and putting a DSO last leave the rest as it is. */
  lemma StepOverRest(g: Graph, active: seq<nat>, next: seq<nat>, w: Walk)
    requires WellFormed(g) && |w.mark| == |next| == |g| && Distinct(active) && Bounded(active, |g|)
    requires active != [] && next[active[0]] < |g[active[0]]| && w.mark[g[active[0]][next[active[0]]]]
    ensures Rest(g, active, next[active[0] := next[active[0]] + 1], w) == Rest(g, active, next, w)
  {
    hide Rest, Explore;
    var p := active[0];
    var next' := next[p := next[p] + 1];
    RestOf(g, active, next, w);
    RestOf(g, active, next', w);
    OverMarked(g, p, next[p], w);
    assert forall i :: 0 <= i < |active[1..]| ==> active[1..][i] == active[i + 1] && active[i + 1] != p;
    RestSame(g, active[1..], next, next', Explore(g, p, next[p], w));
  }

  lemma RestOf(g: Graph, active: seq<nat>, next: seq<nat>, w: Walk)
    requires WellFormed(g) && |w.mark| == |next| == |g| && Bounded(active, |g|) && active != []
    ensures Bounded(active[1..], |g|)
    ensures Rest(g, active, next, w) == Rest(g, active[1..], next, Explore(g, active[0], next[active[0]], w))
  {
  }

  lemma OverMarked(g: Graph, u: nat, n: nat, w: Walk)
    requires WellFormed(g) && u < |g| == |w.mark| && n < |g[u]|
    ensures w.mark[g[u][n]] ==> Explore(g, u, n, w) == Explore(g, u, n + 1, w)
    ensures !w.mark[g[u][n]] ==>
              var w1 := Explore(g, g[u][n], 0, Walk(w.mark[g[u][n] := true], w.order));
              Explore(g, u, n, w) == Explore(g, u, n, w1)
  {
    if !w.mark[g[u][n]] {
      var w1 := Explore(g, g[u][n], 0, Walk(w.mark[g[u][n] := true], w.order));
      assert w1.mark[g[u][n]];
      assert Explore(g, u, n, w1) == Explore(g, u, n + 1, w1);
    }
  }

  lemma DescendRest(g: Graph, active: seq<nat>, next: seq<nat>, w: Walk)
    requires WellFormed(g) && |w.mark| == |next| == |g| && Distinct(active) && Bounded(active, |g|)
    requires active != [] && next[active[0]] < |g[active[0]]| && !w.mark[g[active[0]][next[active[0]]]]
    requires g[active[0]][next[active[0]]] !in active
    ensures var d := g[active[0]][next[active[0]]];
      && Bounded([d] + active, |g|)
      && Rest(g, [d] + active, next[d := 0], Walk(w.mark[d := true], w.order)) == Rest(g, active, next, w)
  {
    var p, d := active[0], g[active[0]][next[active[0]]];
    hide Rest, Explore;
    var deeper, next', w0 := [d] + active, next[d := 0], Walk(w.mark[d := true], w.order);
    var w1 := Explore(g, d, 0, w0);
    assert deeper[1..] == active && forall i :: 0 <= i < |active| ==> active[i] in active;
    OverMarked(g, p, next[p], w);
    RestOf(g, active, next, w);
    RestOf(g, active, next, w1);
    RestOf(g, deeper, next', w0);
    RestSame(g, active, next, next', w1);
  }

  lemma FinishRest(g: Graph, active: seq<nat>, next: seq<nat>, w: Walk)
    requires WellFormed(g) && |w.mark| == |next| == |g| && Bounded(active, |g|)
    requires active != [] && next[active[0]] == |g[active[0]]|
    ensures Bounded(active[1..], |g|)
    ensures Rest(g, active[1..], next, Walk(w.mark, w.order + [active[0]])) == Rest(g, active, next, w)
  {
  }

  ghost predicate Agree(m: seq<bool>, m': seq<bool>, c: set<nat>) {
    |m| == |m'| && forall v :: v in c && v < |m| ==> m[v] == m'[v]
  }

  /** What is marked outside of what the traversal can reach does not matter. */
  lemma {:induction false} ExploreAgrees(g: Graph, u: nat, n: nat, w: Walk, w': Walk, c: set<nat>)
    requires WellFormed(g) && u < |g| == |w.mark| == |w'.mark| && u in c && forall x, y :: x in c && Edge(g, x, y) ==> y in c
    requires Agree(w.mark, w'.mark, c) && w.order == w'.order
    ensures var r, r' := Explore(g, u, n, w), Explore(g, u, n, w'); r.order == r'.order && Agree(r.mark, r'.mark, c)
    decreases Free(w.mark), |g[u]| - n
  {
    if n < |g[u]| {
      var d := g[u][n];
      assert Edge(g, u, d);
      if w.mark[d] {
        ExploreAgrees(g, u, n + 1, w, w', c);
      } else {
        MarkingFrees(w.mark, d);
        var v, v' := Walk(w.mark[d := true], w.order), Walk(w'.mark[d := true], w'.order);
        ExploreAgrees(g, d, 0, v, v', c);
        ExploreAgrees(g, u, n + 1, Explore(g, d, 0, v), Explore(g, d, 0, v'), c);
      }
    }
  }

  lemma ExploreIsDepthFirst(g: Graph, root: nat, mark: seq<bool>, order: seq<nat>)
    requires WellFormed(g) && root < |g| == |mark|
    requires forall v: nat :: v < |g| && Reaches(g, root, v) ==> v == root || !mark[v]
    ensures Explore(g, root, 0, Walk(mark[root := true], [])).order == DepthFirst(g, root)
  {
    var c := set v: nat | v < |g| && Reaches(g, root, v);
    ReachesSelf(g, root);
    forall x, y | x in c && Edge(g, x, y) ensures y in c {
      ReachesStep(g, root, x, y);
    }
    ExploreAgrees(g, root, 0, Walk(mark[root := true], []), Walk(seq(|g|, v => v == root), []), c);
  }

  /** The rest of the traversal ends with goal. */
  ghost predicate Heading(g: Graph, order: seq<nat>, active: seq<nat>, mark: seq<bool>, next: seq<nat>, goal: seq<nat>) {
    && WellFormed(g) && |mark| == |next| == |g| && Bounded(active, |g|)
    && Rest(g, active, next, Walk(mark, order)).order == goal
  }

  lemma ActiveParts(g: Graph, root: nat, order: seq<nat>, active: seq<nat>, mark: seq<bool>, next: seq<nat>)
    requires Exploring(g, root, order, active, mark, next)
    ensures WellFormed(g) && |mark| == |next| == |g| && Bounded(active, |g|) && Distinct(active)
    ensures active != [] && next[active[0]] < |g[active[0]]| && !mark[g[active[0]][next[active[0]]]] ==>
              g[active[0]][next[active[0]]] !in active
  {
    assert forall i :: 0 <= i < |active| ==> active[i] == (order + active)[|order| + i];
    if active != [] && next[active[0]] < |g[active[0]]| && !mark[g[active[0]][next[active[0]]]] {
      var p, d := active[0], g[active[0]][next[active[0]]];
      assert p in order + active;
      ReachesStep(g, root, p, d);
    }
  }

  lemma BeginHeads(g: Graph, root: nat, mark: seq<bool>, next: seq<nat>)
    requires WellFormed(g) && root < |g| == |mark| == |next|
    requires forall v: nat :: v < |g| && Reaches(g, root, v) ==> v == root || !mark[v]
    ensures Heading(g, [], [root], mark[root := true], next[root := 0], DepthFirst(g, root))
  {
    ExploreIsDepthFirst(g, root, mark, []);
    var w := Walk(mark[root := true], []);
    RestOf(g, [root], next[root := 0], w);
    assert [root][1..] == [] && Rest(g, [], next[root := 0], Explore(g, root, 0, w)) == Explore(g, root, 0, w);
    hide Explore, DepthFirst;
  }

  lemma StepOverHeads(g: Graph, root: nat, order: seq<nat>, active: seq<nat>, mark: seq<bool>, next: seq<nat>, goal: seq<nat>)
    requires Exploring(g, root, order, active, mark, next) && Heading(g, order, active, mark, next, goal)
    requires |active| > 0 && next[active[0]] < |g[active[0]]| && mark[g[active[0]][next[active[0]]]]
    ensures Heading(g, order, active, mark, next[active[0] := next[active[0]] + 1], goal)
  {
    ActiveParts(g, root, order, active, mark, next);
    hide Exploring, Rest;
    StepOverRest(g, active, next, Walk(mark, order));
  }

  lemma DescendHeads(g: Graph, root: nat, order: seq<nat>, active: seq<nat>, mark: seq<bool>, next: seq<nat>, goal: seq<nat>)
    requires Exploring(g, root, order, active, mark, next) && Heading(g, order, active, mark, next, goal)
    requires |active| > 0 && next[active[0]] < |g[active[0]]| && !mark[g[active[0]][next[active[0]]]]
    ensures var d := g[active[0]][next[active[0]]];
      Heading(g, order, [d] + active, mark[d := true], next[d := 0], goal)
  {
    ActiveParts(g, root, order, active, mark, next);
    hide Exploring, Rest;
    DescendRest(g, active, next, Walk(mark, order));
  }

  lemma FinishHeads(g: Graph, order: seq<nat>, active: seq<nat>, mark: seq<bool>, next: seq<nat>, goal: seq<nat>)
    requires Heading(g, order, active, mark, next, goal)
    requires |active| > 0 && next[active[0]] == |g[active[0]]|
    ensures Heading(g, order + [active[0]], active[1..], mark, next, goal)
  {
    hide Rest;
    FinishRest(g, active, next, Walk(mark, order));
  }

  lemma DoneHeads(g: Graph, order: seq<nat>, mark: seq<bool>, next: seq<nat>, goal: seq<nat>)
    requires Heading(g, order, [], mark, next, goal)
    ensures order == goal
  {
  }
}
