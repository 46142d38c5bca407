/**
 The dependency lists of the loaded DSOs and the two algorithms that work on them in place:
 extend_bfs_deps, which grows a list while scanning it, and queue_ctors, whose output queue and
 work stack share one buffer.
 */
module CtorQueue {
  import opened Basics
  import opened Lists
  import opened DepGraph
  import opened CtorOrder

  /** Ends a list, as the null pointer does in the dependency arrays. */
  const NULL := -1

  /** a holds the members of s from its start. */
  ghost predicate StartsWith(a: array<int>, s: seq<nat>)
    reads a
  {
    |s| <= a.Length && forall i :: 0 <= i < |s| ==> a[i] == s[i]
  }

  /** a holds the members of s from its start, followed by the terminator. */
  ghost predicate Terminated(a: array<int>, s: seq<nat>)
    reads a
  {
    StartsWith(a, s) && |s| < a.Length && a[|s|] == NULL
  }

  /** list starts with the direct dependencies of p, then names every other one exactly once. */
  ghost predicate IsBfsClosure(g: Graph, p: nat, list: seq<nat>)
    requires p < |g|
  {
    && g[p] <= list
    && (forall v: nat :: v in list <==> DependsOn(g, p, v))
    && (forall i, j :: 0 <= i < j < |list| && |g[p]| <= j ==> list[i] != list[j])
  }

  /** What the members of list need directly, one after the other. */
  ghost function AllNeeds(g: Graph, list: seq<nat>): seq<nat> {
    if list == [] then []
    else
      var d := list[|list| - 1];
      AllNeeds(g, list[..|list| - 1]) + if d < |g| then g[d] else []
  }

  lemma AllNeedsGrows(g: Graph, list: seq<nat>, k: nat)
    requires k < |list| && list[k] < |g|
    ensures AllNeeds(g, list[..k + 1]) == AllNeeds(g, list[..k]) + g[list[k]]
  {
    assert list[..k + 1][..k] == list[..k];
  }

  /** The direct dependencies of p, and behind them what the list needs and does not have yet, along the list. */
  ghost predicate IsBreadthFirst(g: Graph, p: nat, list: seq<nat>)
    requires p < |g|
  {
    list == Joined(g[p], AllNeeds(g, list))
  }

  /** The first member of list that needs v directly. */
  ghost function FirstNeeder(g: Graph, list: seq<nat>, v: nat): (k: nat)
    requires v in AllNeeds(g, list)
    ensures k < |list| && list[k] < |g| && v in g[list[k]]
    ensures forall j :: 0 <= j < k ==> list[j] >= |g| || v !in g[list[j]]
  {
    var front := list[..|list| - 1];
    if v in AllNeeds(g, front) then FirstNeeder(g, front, v)
    else
      NotNeeded(g, front, v);
      |front|
  }

  lemma {:induction false} NeededAt(g: Graph, list: seq<nat>, v: nat)
    requires v in AllNeeds(g, list)
    ensures var k := FirstNeeder(g, list, v);
      IndexOf(AllNeeds(g, list), v) == |AllNeeds(g, list[..k])| + IndexOf(g[list[k]], v)
  {
    hide IndexOf;
    var front, d := list[..|list| - 1], list[|list| - 1];
    if v in AllNeeds(g, front) {
      NeededAt(g, front, v);
      assert front[..FirstNeeder(g, front, v)] == list[..FirstNeeder(g, front, v)];
      IndexInFront(AllNeeds(g, front), if d < |g| then g[d] else [], v);
    } else {
      IndexBehind(AllNeeds(g, front), g[d], v);
    }
  }

  lemma {:induction false} NotNeeded(g: Graph, list: seq<nat>, v: nat)
    ensures v in AllNeeds(g, list) <==> exists k :: 0 <= k < |list| && list[k] < |g| && v in g[list[k]]
  {
    if list != [] {
      var front := list[..|list| - 1];
      NotNeeded(g, front, v);
      assert list == front + [list[|list| - 1]];
      forall k | 0 <= k < |list| && list[k] < |g| && v in g[list[k]] ensures v in AllNeeds(g, list) {
        if k < |front| { assert front[k] == list[k]; }
      }
      if v in AllNeeds(g, front) {
        var k :| 0 <= k < |front| && front[k] < |g| && v in g[front[k]];
        assert list[k] == front[k];
      }
    }
  }

  /**
   Breadth first: of two entries behind the direct dependencies, the first is needed by an earlier member of the list,
   or by the same one and is named earlier there.
   */
  lemma BreadthFirstOrder(g: Graph, p: nat, list: seq<nat>, i: nat, j: nat)
    requires p < |g| && IsBreadthFirst(g, p, list) && |g[p]| <= i < j < |list|
    ensures list[i] in AllNeeds(g, list) && list[j] in AllNeeds(g, list)
    ensures var ki, kj := FirstNeeder(g, list, list[i]), FirstNeeder(g, list, list[j]);
      ki < kj || (ki == kj && IndexOf(g[list[ki]], list[i]) < IndexOf(g[list[kj]], list[j]))
  {
    JoinedMeans(g[p], AllNeeds(g, list));
    NeededAt(g, list, list[i]);
    NeededAt(g, list, list[j]);
    var ki, kj := FirstNeeder(g, list, list[i]), FirstNeeder(g, list, list[j]);
    hide Joined, IndexOf;
    if kj < ki {
      AllNeedsGrows(g, list, kj);
      NeedsPrefix(g, list, kj + 1, ki);
    }
  }

  lemma {:induction false} NeedsPrefix(g: Graph, list: seq<nat>, m: nat, n: nat)
    requires m <= n <= |list|
    ensures |AllNeeds(g, list[..m])| <= |AllNeeds(g, list[..n])|
  {
    if m < n {
      NeedsPrefix(g, list, m, n - 1);
      assert list[..n][..n - 1] == list[..n - 1];
    }
  }

  lemma NothingNeeded(g: Graph, list: seq<nat>)
    ensures Joined(list, AllNeeds(g, list[..0])) == list
  {
    assert list[..0] == [];
  }

  lemma JoinedNeeds(g: Graph, p: nat, list: seq<nat>, grown: seq<nat>, i: nat)
    requires p < |g| && i < |list| && list[i] < |g| && list == Joined(g[p], AllNeeds(g, list[..i]))
    requires grown == Joined(list, g[list[i]])
    ensures i < |grown| && grown == Joined(g[p], AllNeeds(g, grown[..i + 1]))
  {
    JoinedMeans(list, g[list[i]]);
    AllNeedsGrows(g, list, i);
    JoinedConcat(g[p], AllNeeds(g, list[..i]), g[list[i]]);
    assert grown[..i + 1] == list[..i + 1];
    hide Joined, AllNeeds;
  }

  /** How many entries of ds from position j on are not marked, repetitions counted. */
  ghost function Unmarked(ds: seq<nat>, j: nat, mark: seq<bool>): nat
    decreases |ds| - j
  {
    if j >= |ds| then 0
    else Unmarked(ds, j + 1, mark) + if ds[j] < |mark| && !mark[ds[j]] then 1 else 0
  }

  lemma {:induction false} UnmarkedShrinks(ds: seq<nat>, j: nat, mark: seq<bool>, d: nat)
    requires d < |mark|
    ensures Unmarked(ds, j, mark[d := true]) <= Unmarked(ds, j, mark)
    decreases |ds| - j
  {
    if j < |ds| {
      UnmarkedShrinks(ds, j + 1, mark, d);
    }
  }

  /** list is being scanned: the members before position i have all their dependencies in it. */
  ghost predicate Growing(g: Graph, p: nat, list: seq<nat>, i: nat, mark: seq<bool>) {
    && WellFormed(g) && p < |g| == |mark| && g[p] <= list && i <= |list| <= |g[p]| + |g|
    && (forall v :: v in list ==> v < |g| && DependsOn(g, p, v))
    && (forall v: nat :: v < |g| ==> (mark[v] <==> v in list))
    && (forall j, k :: 0 <= j < k < |list| && |g[p]| <= k ==> list[j] != list[k])
    && (forall k, d :: 0 <= k < i && Edge(g, list[k], d) ==> d in list)
  }

  lemma GrowingBegins(g: Graph, p: nat, mark: seq<bool>)
    requires WellFormed(g) && p < |g| == |mark|
    requires forall v: nat :: v < |g| ==> (mark[v] <==> v in g[p])
    ensures Growing(g, p, g[p], 0, mark)
  {
    forall v | v in g[p] ensures DependsOn(g, p, v) { ReachesSelf(g, v); }
  }

  lemma GrowingMarks(g: Graph, p: nat, list: seq<nat>, i: nat, mark: seq<bool>)
    requires Growing(g, p, list, i, mark)
    ensures p < |g| == |mark| && g[p] <= list && i <= |list| <= |g[p]| + |g|
    ensures forall v :: v in list ==> v < |g| && mark[v]
    ensures forall v :: 0 <= v < |g| && mark[v] ==> v in list
  {
  }

  lemma AppendKeeps(g: Graph, p: nat, list: seq<nat>, i: nat, mark: seq<bool>, d: nat)
    requires Growing(g, p, list, i, mark)
    requires i < |list| && Edge(g, list[i], d) && !mark[d]
    ensures Growing(g, p, list + [d], i, mark[d := true])
  {
    assert list[i] in list;
    var w :| w in g[p] && Reaches(g, w, list[i]);
    ReachesStep(g, w, list[i], d);
    var all := CountFrom(|g|);
    var added := (list + [d])[|g[p]|..];
    forall x | x in added ensures x in all { assert x in list + [d]; }
    DistinctFits(added, all);
  }

  lemma ScannedKeeps(g: Graph, p: nat, list: seq<nat>, i: nat, mark: seq<bool>)
    requires Growing(g, p, list, i, mark) && i < |list| && list[i] < |g|
    requires forall k :: 0 <= k < |g[list[i]]| ==> g[list[i]][k] in list
    ensures Growing(g, p, list, i + 1, mark)
  {
  }

  lemma GrownIsClosure(g: Graph, p: nat, list: seq<nat>, mark: seq<bool>)
    requires Growing(g, p, list, |list|, mark)
    ensures IsBfsClosure(g, p, list)
  {
    var members := set v | v in list;
    forall v: nat | DependsOn(g, p, v) ensures v in list {
      var w :| w in g[p] && Reaches(g, w, v);
      forall x, y | x in members && x < |g| && y in g[x] ensures y in members {
        var k :| 0 <= k < |list| && list[k] == x;
        assert Edge(g, list[k], y);
      }
      ClosedSetHoldsReachable(g, members, w, v);
    }
  }

  lemma {:induction false} CountFrom(n: nat) returns (s: set<nat>)
    ensures forall v: nat :: v in s <==> v < n
    ensures |s| == n
  {
    if n == 0 {
      s := {};
    } else {
      s := CountFrom(n - 1);
      s := s + {n - 1};
    }
  }

  ghost function MembersOf(s: seq<nat>): (m: set<nat>)
    ensures |m| <= |s| && forall v :: v in m <==> v in s
  {
    if s == [] then {} else MembersOf(s[..|s| - 1]) + {s[|s| - 1]}
  }

  /** The queue grows from the start of the buffer, the stack from its end; both fit with a slot to spare. */
  ghost predicate Buffer(buffer: array<int>, qpos: nat, spos: nat, order: seq<nat>, stack: seq<nat>)
    reads buffer
  {
    && qpos == |order| && spos + |stack| == buffer.Length && qpos < spos
    && (forall i :: 0 <= i < |order| ==> buffer[i] == order[i])
    && (forall i :: spos <= i < buffer.Length ==> buffer[i] == stack[i - spos])
  }

  lemma ListHoldsReachable(g: Graph, p: nat, list: seq<nat>)
    requires WellFormed(g) && p < |g| && IsBfsClosure(g, p, list)
    ensures forall v: nat :: Reaches(g, p, v) ==> v == p || v in list
  {
    var members := MembersOf(list) + {p};
    forall v: nat | Reaches(g, p, v) ensures v in members {
      forall x, y | x in members && x < |g| && y in g[x] ensures y in members {
        if x == p {
          ReachesSelf(g, y);
        } else {
          var w :| w in g[p] && Reaches(g, w, x);
          ReachesStep(g, w, x, y);
        }
      }
      ClosedSetHoldsReachable(g, members, p, v);
    }
  }

  class Linker {
    /** The first ndeps_direct entries of every dependency list. */
    const direct: Graph
    var deps: seq<array<int>>
    var bfsBuilt: seq<bool>
    const mark: array<bool>
    const nextDep: array<nat>
    /** What the dependency lists hold. */
    ghost var lists: seq<seq<nat>>

    ghost predicate Valid()
      reads this, deps
    {
      && WellFormed(direct)
      && |deps| == |bfsBuilt| == |lists| == mark.Length == nextDep.Length == |direct|
      && (forall u :: 0 <= u < |direct| ==> direct[u] <= lists[u] && Terminated(deps[u], lists[u]))
      && (forall u, v: nat :: 0 <= u < |direct| && v in lists[u] ==> v < |direct|)
      && (forall u :: 0 <= u < |direct| && bfsBuilt[u] ==> IsBfsClosure(direct, u, lists[u]))
    }

    /** Turns the direct dependencies of p into the breadth-first closure. */
    method ExtendBfsDeps(p: nat)
      requires Valid() && p < |direct|
      requires !bfsBuilt[p] ==> lists[p] == direct[p] && forall v :: 0 <= v < |direct| ==> !mark[v]
      modifies this`deps, this`bfsBuilt, this`lists, mark
      ensures Valid() && bfsBuilt == old(bfsBuilt)[p := true]
      ensures forall u :: 0 <= u < |direct| && u != p ==> deps[u] == old(deps[u]) && lists[u] == old(lists[u])
      ensures forall v :: 0 <= v < |direct| ==> mark[v] == (old(bfsBuilt[p]) && old(mark[v]))
      ensures !old(bfsBuilt[p]) ==> IsBreadthFirst(direct, p, lists[p])
    {
      if bfsBuilt[p] {
        assert deps[p] == old(deps)[p];
        return;
      }
      hide Growing, IsBfsClosure, IsBreadthFirst;
      MarkDirect(p);
      ghost var list := Grow(p);
      lists := lists[p := list];
      bfsBuilt := bfsBuilt[p := true];
      ClearMarks();
    }

    method MarkDirect(p: nat)
      requires WellFormed(direct) && p < |direct| == |deps| == mark.Length && Terminated(deps[p], direct[p])
      requires forall v :: 0 <= v < |direct| ==> !mark[v]
      modifies mark
      ensures Growing(direct, p, direct[p], 0, mark[..])
    {
      ghost var list := direct[p];
      var i := 0;
      while deps[p][i] != NULL
        invariant 0 <= i <= |list|
        invariant forall v: nat :: v < |direct| ==> (mark[v] <==> v in list[..i])
        decreases |list| - i
      {
        mark[deps[p][i]] := true;
        assert list[..i + 1] == list[..i] + [list[i]];
        i := i + 1;
      }
      assert list[..i] == list;
      GrowingBegins(direct, p, mark[..]);
    }

    /** Scans the list of p to its end, which moves away as dependencies are appended. */
    method Grow(p: nat) returns (ghost list: seq<nat>)
      requires p < |direct| == |deps| && DirectReadable() && Terminated(deps[p], direct[p])
      requires Growing(direct, p, direct[p], 0, mark[..])
      modifies this`deps, mark
      ensures |deps| == |direct| && DirectReadable() && Terminated(deps[p], list)
      ensures forall u :: 0 <= u < |direct| && u != p ==> deps[u] == old(deps[u])
      ensures IsBfsClosure(direct, p, list) && IsBreadthFirst(direct, p, list)
    {
      hide Growing, IsBfsClosure, Joined, AllNeeds;
      var ndepsAll := |direct[p]|;
      list := direct[p];
      var i := 0;
      NothingNeeded(direct, list);
      while deps[p][i] != NULL
        invariant |deps| == |direct| && ndepsAll == |list| && i <= |list|
        invariant Terminated(deps[p], list) && DirectReadable()
        invariant forall u :: 0 <= u < |direct| && u != p ==> deps[u] == old(deps[u])
        invariant Growing(direct, p, list, i, mark[..])
        invariant list == Joined(direct[p], AllNeeds(direct, list[..i]))
        decreases |direct[p]| + |direct| - i
      {
        GrowingMarks(direct, p, list, i, mark[..]);
        var dep := deps[p][i];
        assert dep == list[i] && dep in list;
        var cnt := CountNew(dep);
        Enlarge(p, ndepsAll, cnt, list);
        ghost var was := list;
        ndepsAll, list := AppendNew(p, dep, ndepsAll, list, i);
        JoinedNeeds(direct, p, was, list, i);
        i := i + 1;
      }
      assert list[..|list|] == list;
      GrowingMarks(direct, p, list, i, mark[..]);
      GrownIsClosure(direct, p, list, mark[..]);
    }

    method ClearMarks()
      modifies mark
      ensures forall v :: 0 <= v < mark.Length ==> !mark[v]
    {
      for q := 0 to mark.Length
        invariant forall v :: 0 <= v < q ==> !mark[v]
      {
        mark[q] := false;
      }
    }

    /** Every array still starts with the direct dependencies of its DSO. */
    ghost predicate DirectReadable()
      reads this, deps
    {
      && WellFormed(direct) && |deps| == mark.Length == |direct|
      && forall u :: 0 <= u < |direct| ==> StartsWith(deps[u], direct[u])
    }

    /** Moves the list of p to a new array with room for cnt more members. */
    method Enlarge(p: nat, ndepsAll: nat, cnt: nat, ghost list: seq<nat>)
      requires p < |deps| && ndepsAll == |list| && Terminated(deps[p], list)
      modifies this`deps
      ensures |deps| == |old(deps)| && fresh(deps[p]) && deps == old(deps)[p := deps[p]]
      ensures deps[p].Length == ndepsAll + cnt + 1 && Terminated(deps[p], list)
    {
      var tmp := new int[ndepsAll + cnt + 1];
      for k := 0 to ndepsAll + 1
        invariant forall m :: 0 <= m < k ==> tmp[m] == deps[p][m]
        modifies tmp
      {
        tmp[k] := deps[p][k];
      }
      deps := deps[p := tmp];
    }

    /** Counts the direct dependencies of dep that the list of p does not have yet. */
    method CountNew(dep: nat) returns (cnt: nat)
      requires DirectReadable() && dep < |direct|
      ensures cnt == Unmarked(direct[dep], 0, mark[..])
    {
      cnt := 0;
      var j := 0;
      ghost var marks := mark[..];
      while j < |direct[dep]|
        invariant 0 <= j <= |direct[dep]|
        invariant cnt + Unmarked(direct[dep], j, marks) == Unmarked(direct[dep], 0, marks)
      {
        assert deps[dep][j] == direct[dep][j];
        if !mark[deps[dep][j]] { cnt := cnt + 1; }
        j := j + 1;
      }
    }

    /** Appends the direct dependencies of dep that the list of p does not have yet. */
    method AppendNew(p: nat, dep: nat, ndeps: nat, ghost list: seq<nat>, ghost i: nat)
      returns (ndepsAll: nat, ghost grown: seq<nat>)
      requires DirectReadable() && p < |direct| && ndeps == |list|
      requires forall u :: 0 <= u < |direct| && u != p ==> deps[u] != deps[p]
      requires StartsWith(deps[p], list)
      requires i < |list| && list[i] == dep < |direct| && Growing(direct, p, list, i, mark[..])
      requires |deps| == |direct| && deps[p].Length > |list| + Unmarked(direct[dep], 0, mark[..])
      modifies mark, deps[p]
      ensures DirectReadable() && ndepsAll == |grown| && |list| <= |grown|
      ensures Terminated(deps[p], grown)
      ensures Growing(direct, p, grown, i + 1, mark[..])
      ensures grown == Joined(list, direct[dep])
    {
      hide Growing, Joined;
      ndepsAll, grown := ndeps, list;
      var j := 0;
      JoinedNone(list, direct[dep]);
      while j < |direct[dep]|
        invariant 0 <= j <= |direct[dep]|
        invariant DirectReadable() && ndepsAll == |grown| && |list| <= |grown| && grown[i] == dep
        invariant StartsWith(deps[p], grown)
        invariant |grown| + Unmarked(direct[dep], j, mark[..]) < deps[p].Length
        invariant Growing(direct, p, grown, i, mark[..])
        invariant grown == Joined(list, direct[dep][..j])
      {
        ghost var d, before := direct[dep][j], mark[..];
        GrowingMarks(direct, p, grown, i, before);
        JoinedGrows(list, direct[dep], j);
        if !mark[deps[dep][j]] {
          AppendKeeps(direct, p, grown, i, before, d);
          UnmarkedShrinks(direct[dep], j + 1, before, d);
          mark[deps[dep][j]] := true;
          deps[p][ndepsAll] := deps[dep][j];
          grown := grown + [d];
          ndepsAll := ndepsAll + 1;
          assert mark[..] == before[d := true];
        }
        j := j + 1;
      }
      assert direct[dep][..j] == direct[dep];
      JoinedHas(list, direct[dep]);
      GrowingMarks(direct, p, grown, i, mark[..]);
      deps[p][ndepsAll] := NULL;
      ScannedKeeps(direct, p, grown, i, mark[..]);
    }

    /** Clears the marks of everything root can reach and bounds how many DSOs that is. */
    method SizeQueue(root: nat) returns (cnt: nat, ghost bound: set<nat>)
      requires Valid() && root < |direct|
      modifies mark
      ensures forall v: nat :: v < |direct| && Reaches(direct, root, v) ==> v == root || !mark[v]
      ensures forall v :: 0 <= v < |direct| && mark[v] ==> old(mark[v])
      ensures forall v: nat :: Reaches(direct, root, v) ==> v in bound
      ensures |bound| <= cnt
    {
      cnt := 0;
      if bfsBuilt[root] {
        ghost var list := lists[root];
        while deps[root][cnt] != NULL
          invariant cnt <= |list|
          invariant forall v :: v in list[..cnt] ==> v < |direct| && !mark[v]
          invariant forall v :: 0 <= v < |direct| && mark[v] ==> old(mark[v])
          decreases |list| - cnt
        {
          assert deps[root][cnt] == list[cnt] && list[cnt] in list;
          mark[deps[root][cnt]] := false;
          assert list[..cnt + 1] == list[..cnt] + [list[cnt]];
          cnt := cnt + 1;
        }
        assert list[..cnt] == list;
        bound := MembersOf(list) + {root};
        ListHoldsReachable(direct, root, list);
      } else {
        while cnt < |direct|
          invariant cnt <= |direct|
          invariant forall v :: 0 <= v < cnt ==> !mark[v]
          invariant forall v :: 0 <= v < |direct| && mark[v] ==> old(mark[v])
        {
          mark[cnt] := false;
          cnt := cnt + 1;
        }
        bound := CountFrom(|direct|);
      }
      if bfsBuilt[root] { cnt := cnt + 1; }
    }

    /** Returns the constructor queue of root, terminated by NULL. */
    method QueueCtors(root: nat) returns (queue: array<int>, ghost order: seq<nat>)
      requires Valid() && root < |direct|
      modifies mark, nextDep
      ensures fresh(queue) && Terminated(queue, order)
      ensures IsCtorOrder(direct, root, order) && order == DepthFirst(direct, root)
      ensures forall v :: 0 <= v < |direct| && mark[v] ==> old(mark[v]) && v !in order
    {
      hide Exploring, IsCtorOrder, IsBfsClosure, Reaches, DepthFirst;
      var cnt, bound := SizeQueue(root);
      ReachesSelf(direct, root);
      assert root in bound;
      cnt := cnt + 1;
      queue := new int[cnt](_ => NULL);
      var qpos: nat;
      qpos, order := Sort(root, queue, cnt, bound);
      queue[qpos] := NULL;
      UnmarkQueue(queue, qpos, order);
    }

    /** The traversal itself: the queue fills from the start of the buffer, the stack from its end. */
    method Sort(root: nat, queue: array<int>, cnt: nat, ghost bound: set<nat>) returns (qpos: nat, ghost order: seq<nat>)
      requires DirectReadable() && nextDep.Length == |direct| && root < |direct|
      requires queue !in deps && queue.Length == cnt > 1
      requires (forall v: nat :: Reaches(direct, root, v) ==> v in bound) && |bound| < cnt
      requires forall v: nat :: v < |direct| && Reaches(direct, root, v) ==> v == root || !mark[v]
      modifies mark, nextDep, queue
      ensures qpos == |order| < queue.Length && StartsWith(queue, order)
      ensures IsCtorOrder(direct, root, order) && order == DepthFirst(direct, root)
      ensures forall v: nat :: v in order <==> Reaches(direct, root, v)
      ensures forall v :: v in order ==> v < |direct|
      ensures forall v :: 0 <= v < |direct| && mark[v] ==> old(mark[v]) || Reaches(direct, root, v)
    {
      hide Exploring, IsCtorOrder, Reaches, Heading, DepthFirst;
      var spos := cnt - 1;
      queue[spos] := root;
      qpos, order := 0, [];
      ghost var stack: seq<nat> := [root];
      ReachesSelf(direct, root);
      Begin(direct, root, mark[..], nextDep[..]);
      BeginHeads(direct, root, mark[..], nextDep[..]);
      ghost var goal := DepthFirst(direct, root);
      nextDep[root] := 0;
      mark[root] := true;
      while spos < cnt
        invariant DirectReadable() && 0 <= spos && Buffer(queue, qpos, spos, order, stack)
        invariant Exploring(direct, root, order, stack, mark[..], nextDep[..])
        invariant Heading(direct, order, stack, mark[..], nextDep[..], goal)
        invariant forall v :: 0 <= v < |direct| && mark[v] ==> old(mark[v]) || Reaches(direct, root, v)
        decreases cnt - qpos
      {
        var p;
        p, spos, stack := Deepen(queue[spos], queue, qpos, spos + 1, cnt, root, order, stack, bound, goal);
        FitsIn(direct, root, order, stack, mark[..], nextDep[..], bound);
        Finish(direct, root, order, stack, mark[..], nextDep[..]);
        FinishHeads(direct, order, stack, mark[..], nextDep[..], goal);
        queue[qpos] := p;
        qpos := qpos + 1;
        order, stack := order + [stack[0]], stack[1..];
      }
      FitsIn(direct, root, order, stack, mark[..], nextDep[..], bound);
      Done(direct, root, order, mark[..], nextDep[..]);
      DoneHeads(direct, order, mark[..], nextDep[..], goal);
    }

    method UnmarkQueue(queue: array<int>, qpos: nat, ghost order: seq<nat>)
      requires qpos == |order| && Terminated(queue, order) && forall v :: v in order ==> v < mark.Length
      modifies mark
      ensures forall v :: 0 <= v < mark.Length ==> mark[v] == (old(mark[v]) && v !in order)
    {
      for i := 0 to qpos
        invariant forall v :: 0 <= v < mark.Length ==> mark[v] == (old(mark[v]) && v !in order[..i])
      {
        assert order[..i + 1] == order[..i] + [order[i]];
        assert order[i] in order;
        mark[queue[i]] := false;
      }
      assert order[..qpos] == order;
    }

    /** Walks down from p, pushing what it leaves behind, until p has no unmarked dependency left. */
    method Deepen(p0: nat, buffer: array<int>, ghost qpos: nat, spos0: nat, cnt: nat,
                  ghost root: nat, ghost order: seq<nat>, ghost active0: seq<nat>, ghost bound: set<nat>, ghost goal: seq<nat>)
      returns (p: nat, spos: nat, ghost active: seq<nat>)
      requires DirectReadable() && nextDep.Length == |direct| && buffer !in deps && buffer.Length == cnt
      requires |active0| > 0 && active0[0] == p0
      requires Buffer(buffer, qpos, spos0, order, active0[1..])
      requires Exploring(direct, root, order, active0, mark[..], nextDep[..])
      requires Heading(direct, order, active0, mark[..], nextDep[..], goal)
      requires (forall v: nat :: Reaches(direct, root, v) ==> v in bound) && |bound| < cnt
      modifies mark, nextDep, buffer
      ensures |active| > 0 && active[0] == p && p < |direct| && nextDep[p] == |direct[p]|
      ensures Buffer(buffer, qpos, spos, order, active[1..])
      ensures Exploring(direct, root, order, active, mark[..], nextDep[..])
      ensures Heading(direct, order, active, mark[..], nextDep[..], goal)
      ensures forall v :: 0 <= v < |direct| && mark[v] ==> old(mark[v]) || Reaches(direct, root, v)
    {
      hide Exploring, IsBfsClosure, Reaches, Heading;
      p, spos, active := p0, spos0, active0;
      Members(direct, root, order, active, mark[..], nextDep[..]);
      while nextDep[p] < |direct[p]|
        invariant DirectReadable() && |active| > 0 && active[0] == p && p < |direct| && nextDep[p] <= |direct[p]|
        invariant Buffer(buffer, qpos, spos, order, active[1..])
        invariant Exploring(direct, root, order, active, mark[..], nextDep[..])
        invariant Heading(direct, order, active, mark[..], nextDep[..], goal)
        invariant forall v :: 0 <= v < |direct| && mark[v] ==> old(mark[v]) || Reaches(direct, root, v)
        decreases cnt - |order| - |active|, |direct[p]| - nextDep[p]
      {
        ghost var d := direct[p][nextDep[p]];
        assert StartsWith(deps[p], direct[p]);
        if mark[deps[p][nextDep[p]]] {
          StepOver(direct, root, order, active, mark[..], nextDep[..]);
          StepOverHeads(direct, root, order, active, mark[..], nextDep[..], goal);
          assert nextDep[..][p := nextDep[p] + 1] == nextDep[..][active[0] := nextDep[..][active[0]] + 1];
          nextDep[p] := nextDep[p] + 1;
        } else {
          Descend(direct, root, order, active, mark[..], nextDep[..]);
          DescendHeads(direct, root, order, active, mark[..], nextDep[..], goal);
          Members(direct, root, order, [d] + active, mark[..][d := true], nextDep[..][d := 0]);
          FitsIn(direct, root, order, [d] + active, mark[..][d := true], nextDep[..][d := 0], bound);
          spos := spos - 1;
          buffer[spos] := p;
          p := deps[p][nextDep[p]];
          nextDep[p] := 0;
          mark[p] := true;
          active := [d] + active;
        }
      }
    }
  }
}
