/**
 Links between numbered records, and the chain of libraries that wait to be relocated: where following
 the links leads when libraries are put in front of it, also when one is put there twice.
 */
module LazyLinks {
  import opened Basics
  import opened Lists
  import opened DepGraph
  import opened CtorQueue

  type Id = nat
  type Links = map<Id, Id>

  datatype Ref = Null | To(id: Id)

  function Follow(links: Links, d: Id): Ref {
    if d in links then To(links[d]) else Null
  }

  ghost function At(s: seq<Id>, i: int): Ref {
    if 0 <= i < |s| then To(s[i]) else Null
  }

  /** Following links from the first of s visits exactly s, and stops. */
  ghost predicate IsList(links: Links, s: seq<Id>) {
    Distinct(s) && forall i :: 0 <= i < |s| ==> Follow(links, s[i]) == At(s, i + 1)
  }

  /**
   Records in the order in which links visit them; the last one links back to the one at back, or nowhere if that is
   their number.
   */
  datatype Trail = Trail(s: seq<Id>, back: nat)
  {
    predicate Ends() { back == |s| }
  }

  /** Where link i of a trail leads. */
  ghost function Next(t: Trail, i: nat): Ref {
    At(t.s, if i + 1 < |t.s| then i + 1 else t.back)
  }

  /** Following links from head visits t. */
  ghost predicate Follows(links: Links, head: Ref, t: Trail) {
    && Distinct(t.s) && t.back <= |t.s| && head == At(t.s, 0)
    && forall i :: 0 <= i < |t.s| ==> Follow(links, t.s[i]) == Next(t, i)
  }

  ghost function Walk(links: Links, head: Ref, n: nat): Ref {
    if n == 0 then head
    else
      var r := Walk(links, head, n - 1);
      if r.Null? then Null else Follow(links, r.id)
  }

  /** The record d is found from head. */
  ghost predicate Reached(links: Links, head: Ref, d: Id) {
    exists n :: Walk(links, head, n) == To(d)
  }

  lemma {:induction false} WalkAlong(links: Links, head: Ref, t: Trail, n: nat)
    requires Follows(links, head, t)
    ensures Walk(links, head, n).To? ==> Walk(links, head, n).id in t.s
    ensures n < |t.s| ==> Walk(links, head, n) == To(t.s[n])
  {
    if n > 0 {
      WalkAlong(links, head, t, n - 1);
      var r := Walk(links, head, n - 1);
      if r.To? {
        var i :| 0 <= i < |t.s| && t.s[i] == r.id;
        assert Follow(links, t.s[i]) == Next(t, i);
      }
    }
  }

  /** What is found is exactly the trail. */
  lemma ReachedIsTrail(links: Links, head: Ref, t: Trail, d: Id)
    requires Follows(links, head, t)
    ensures Reached(links, head, d) <==> d in t.s
  {
    if n :| Walk(links, head, n) == To(d) {
      WalkAlong(links, head, t, n);
    }
    if d in t.s {
      var i :| 0 <= i < |t.s| && t.s[i] == d;
      WalkAlong(links, head, t, i);
    }
  }

  /** A trail that ends is a list, and nothing else is one. */
  lemma EndsIffList(links: Links, head: Ref, t: Trail)
    requires Follows(links, head, t)
    ensures t.Ends() ==> IsList(links, t.s)
    ensures t.Ends() <==> exists s :: IsList(links, s) && head == At(s, 0)
  {
    if t.Ends() {
      assert IsList(links, t.s) && head == At(t.s, 0);
    } else if s :| IsList(links, s) && head == At(s, 0) {
      AlongList(links, head, t, s, |t.s|);
      AlongList(links, head, t, s, t.back);
    }
  }

  lemma {:induction false} AlongList(links: Links, head: Ref, t: Trail, s: seq<Id>, n: nat)
    requires Follows(links, head, t) && !t.Ends() && IsList(links, s) && head == At(s, 0) && n <= |t.s|
    ensures n < |s| && s[n] == if n < |t.s| then t.s[n] else t.s[t.back]
  {
    if n > 0 {
      AlongList(links, head, t, s, n - 1);
      assert Follow(links, s[n - 1]) == At(s, n) && Follow(links, t.s[n - 1]) == Next(t, n - 1);
    }
  }

  // ---------------------------------------------------------------------------------------------
  // Putting records in front
  // ---------------------------------------------------------------------------------------------

  /** A record that is on the trail already cuts off what is behind it and closes a loop. */
  function Push(t: Trail, p: Id): Trail {
    if p in t.s then Trail([p] + t.s[..IndexOf(t.s, p)], 0) else Trail([p] + t.s, t.back + 1)
  }

  function PushAll(t: Trail, list: seq<Id>): Trail {
    if list == [] then t else Push(PushAll(t, list[..|list| - 1]), list[|list| - 1])
  }

  /** The links after p was put in front of head. */
  function Linked(links: Links, head: Ref, p: Id): Links {
    if head.To? then links[p := head.id] else links - {p}
  }

  lemma FreshFollows(links: Links, head: Ref, t: Trail, p: Id)
    requires Follows(links, head, t) && p !in t.s
    ensures Follows(Linked(links, head, p), To(p), Trail([p] + t.s, t.back + 1))
  {
    var links', t' := Linked(links, head, p), Trail([p] + t.s, t.back + 1);
    DistinctCons(p, t.s);
    hide Distinct;
    forall i | 0 <= i < |t'.s| ensures Follow(links', t'.s[i]) == Next(t', i) {
      if 0 < i {
        assert Follow(links, t.s[i - 1]) == Next(t, i - 1);
      }
    }
  }

  lemma CutFollows(links: Links, head: Ref, t: Trail, k: nat)
    requires Follows(links, head, t) && k < |t.s|
    ensures Follows(Linked(links, head, t.s[k]), To(t.s[k]), Trail([t.s[k]] + t.s[..k], 0))
  {
    var p := t.s[k];
    var links', t' := Linked(links, head, p), Trail([p] + t.s[..k], 0);
    assert forall i :: 0 <= i < k ==> t.s[i] != p;
    forall i | 0 <= i < |t'.s| ensures Follow(links', t'.s[i]) == Next(t', i) {
      if 0 < i {
        assert t.s[i - 1] != p && Follow(links, t.s[i - 1]) == Next(t, i - 1);
      }
    }
  }

  lemma PushFollows(links: Links, head: Ref, t: Trail, p: Id)
    requires Follows(links, head, t)
    ensures Follows(Linked(links, head, p), To(p), Push(t, p))
  {
    if p in t.s {
      CutFollows(links, head, t, IndexOf(t.s, p));
    } else {
      FreshFollows(links, head, t, p);
    }
  }

  function Rev(s: seq<Id>): seq<Id> {
    if s == [] then [] else [s[|s| - 1]] + Rev(s[..|s| - 1])
  }

  lemma DistinctCons(p: Id, s: seq<Id>)
    requires Distinct(s) && p !in s
    ensures Distinct([p] + s)
  {
  }

  lemma {:induction false} RevMembers(s: seq<Id>)
    ensures |Rev(s)| == |s| && forall d :: d in Rev(s) <==> d in s
    ensures Distinct(s) ==> Distinct(Rev(s))
  {
    if s != [] {
      var front, last := s[..|s| - 1], s[|s| - 1];
      RevMembers(front);
      assert s == front + [last];
      if Distinct(s) {
        assert forall i :: 0 <= i < |front| ==> s[i] == front[i] && s[i] != last;
        assert Distinct(front) && last !in front;
        DistinctCons(last, Rev(front));
      }
    }
  }

  ghost predicate Apart(s: seq<Id>, c: seq<Id>) {
    forall d :: d in s ==> d !in c
  }

  lemma FrontDistinct(s: seq<Id>)
    requires s != [] && Distinct(s)
    ensures var front, last := s[..|s| - 1], s[|s| - 1]; Distinct(front) && last !in front && last in s
  {
  }

  lemma PushNew(t: Trail, p: Id)
    requires p !in t.s
    ensures Push(t, p) == Trail([p] + t.s, t.back + 1)
  {
  }

  /** Records that are new come in front, the last one first. */
  lemma {:induction false} PushFresh(t: Trail, list: seq<Id>)
    requires Distinct(list) && Apart(list, t.s)
    ensures PushAll(t, list) == Trail(Rev(list) + t.s, t.back + |list|)
  {
    hide Push, Distinct;
    if list == [] {
      assert Rev(list) + t.s == t.s;
    } else {
      var front, p := list[..|list| - 1], list[|list| - 1];
      FrontDistinct(list);
      assert forall d :: d in front ==> d in list;
      PushFresh(t, front);
      RevMembers(front);
      var was := PushAll(t, front);
      assert PushAll(t, list) == Push(was, p) && Rev(list) == [p] + Rev(front);
      hide PushAll, Rev;
      assert p !in Rev(front) + t.s;
      PushNew(was, p);
      assert [p] + (Rev(front) + t.s) == Rev(list) + t.s;
    }
  }

  /** A loop is never undone, and a record that was there already makes one. */
  lemma {:induction false} PushLoops(t: Trail, list: seq<Id>)
    requires t.back <= |t.s| && (Distinct(list) && Apart(list, t.s) ==> !t.Ends())
    ensures PushAll(t, list).back < |PushAll(t, list).s|
  {
    if list != [] {
      var front, p := list[..|list| - 1], list[|list| - 1];
      assert list == front + [p];
      if Distinct(front) && Apart(front, t.s) && t.Ends() {
        PushFresh(t, front);
        RevMembers(front);
        assert p in front || p in t.s;
      } else {
        PushLoops(t, front);
      }
    }
  }

  /** If a record is put there twice, nothing of what was there before is found any more. */
  lemma {:induction false} PushLoses(t: Trail, list: seq<Id>)
    requires !Distinct(list) && Apart(list, t.s)
    ensures forall d :: d in PushAll(t, list).s ==> d in list
  {
    var front, p := list[..|list| - 1], list[|list| - 1];
    assert list == front + [p];
    var was := PushAll(t, front);
    if Distinct(front) {
      PushFresh(t, front);
      RevMembers(front);
      assert p in Rev(front);
      var k := IndexOf(was.s, p);
      var j :| 0 <= j < |front| && Rev(front)[j] == p;
      assert was.s[j] == p;
      assert k <= j;
      assert was.s[..k] == Rev(front)[..k];
    } else {
      PushLoses(t, front);
    }
  }

  /**
   After a chain that ends had a list of other records put in front one by one, it is the reversed list with the old
   chain behind it if and only if no record was put there twice. Otherwise it is a loop, and the old chain is lost.
   */
  lemma PreparedChain(t: Trail, list: seq<Id>)
    requires t.Ends() && Apart(list, t.s)
    ensures Distinct(list) <==> PushAll(t, list) == Trail(Rev(list) + t.s, |list| + |t.s|)
    ensures Distinct(list) <==> PushAll(t, list).Ends()
    ensures !Distinct(list) ==> forall d :: d in t.s ==> d !in PushAll(t, list).s
  {
    if Distinct(list) {
      PushFresh(t, list);
      RevMembers(list);
    } else {
      PushLoops(t, list);
      PushLoses(t, list);
      RevMembers(list);
    }
  }

  /** In general: the chain ends if and only if each record is new to it. */
  lemma EndsIffFresh(t: Trail, list: seq<Id>)
    requires t.Ends()
    ensures PushAll(t, list).Ends() <==> Distinct(list) && Apart(list, t.s)
  {
    if Distinct(list) && Apart(list, t.s) {
      PushFresh(t, list);
      RevMembers(list);
    } else {
      PushLoops(t, list);
    }
  }

  /** Two new libraries that need each other: they link to each other, whatever waited before. */
  lemma MutualNeed(t: Trail, p: Id, d: Id)
    requires p != d && p !in t.s && d !in t.s
    ensures PushAll(t, [p, d, p]) == Trail([p, d], 0)
  {
    assert [p, d, p][..2] == [p, d] && [p, d][..1] == [p] && [p][..0] == [];
    assert PushAll(t, [p]) == Push(t, p);
    var two := Push(Push(t, p), d);
    assert PushAll(t, [p, d]) == two && two.s == [d, p] + t.s;
    assert IndexOf(two.s, p) == 1;
    assert two.s[..1] == [d];
  }

  lemma {:induction false} PushMembers(t: Trail, list: seq<Id>)
    ensures forall d :: d in PushAll(t, list).s ==> d in t.s || d in list
  {
    if list != [] {
      PushMembers(t, list[..|list| - 1]);
    }
  }

  lemma TrailParts(links: Links, head: Ref, t: Trail)
    requires Follows(links, head, t)
    ensures Distinct(t.s) && t.back <= |t.s| && head == At(t.s, 0)
  {
  }

  // ---------------------------------------------------------------------------------------------
  // Which lists name a library twice
  // ---------------------------------------------------------------------------------------------

  /** The members of s that are in keep, in order. */
  function Only(s: seq<Id>, keep: set<Id>): seq<Id> {
    if s == [] then []
    else Only(s[..|s| - 1], keep) + if s[|s| - 1] in keep then [s[|s| - 1]] else []
  }

  lemma {:induction false} OnlyMembers(s: seq<Id>, keep: set<Id>)
    ensures forall d :: d in Only(s, keep) <==> d in s && d in keep
    ensures Distinct(Only(s, keep)) <==> forall i, j :: 0 <= i < j < |s| && s[i] in keep ==> s[i] != s[j]
  {
    if s != [] {
      var front, last := s[..|s| - 1], s[|s| - 1];
      OnlyMembers(front, keep);
      assert s == front + [last];
      var o := Only(front, keep);
      if last in keep {
        if last in o {
          var i :| 0 <= i < |front| && front[i] == last;
          assert s[i] == s[|s| - 1];
          var k :| 0 <= k < |o| && o[k] == last;
          assert (o + [last])[k] == (o + [last])[|o|];
        } else if Distinct(o) {
          assert Distinct(o + [last]);
        } else {
          var i, j :| 0 <= i < j < |o| && o[i] == o[j];
          assert (o + [last])[i] == (o + [last])[j];
        }
      } else {
        assert o + [] == o;
      }
    }
  }

  /**
   The libraries that dlopen prepares are the new one and its dependencies: one of them is prepared twice exactly if
   the new one depends on itself or a direct dependency is listed twice.
   */
  lemma PreparedTwice(g: Graph, p: nat, list: seq<nat>, keep: set<Id>)
    requires p < |g| && IsBfsClosure(g, p, list)
    ensures Distinct(Only([p] + list, keep)) <==>
      && !(p in keep && DependsOn(g, p, p))
      && forall i, j :: 0 <= i < j < |g[p]| && g[p][i] in keep ==> g[p][i] != g[p][j]
  {
    var s := [p] + list;
    OnlyMembers(s, keep);
    hide DependsOn;
    if Distinct(Only(s, keep)) {
      forall k | 0 <= k < |list| && p in keep ensures list[k] != p {
        assert s[0] == p && s[k + 1] == list[k];
      }
      forall i, j | 0 <= i < j < |g[p]| && g[p][i] in keep ensures g[p][i] != g[p][j] {
        assert s[i + 1] == g[p][i] && s[j + 1] == g[p][j];
      }
    } else {
      var i, j :| 0 <= i < j < |s| && s[i] in keep && s[i] == s[j];
      if 0 < i && j <= |g[p]| {
        assert g[p][i - 1] == s[i] && g[p][j - 1] == s[j];
      }
    }
  }

  /** Of two libraries that need each other and nothing else, each list is the other and itself. */
  lemma MutualClosure(g: Graph, p: nat, d: nat, list: seq<nat>)
    requires WellFormed(g) && p != d && p < |g| && d < |g| && g[p] == [d] && g[d] == [p] && IsBfsClosure(g, p, list)
    ensures list == [d, p]
  {
    ReachesSelf(g, d);
    assert g[d][0] == p && g[p][0] == d;
    ReachesStep(g, d, d, p);
    assert DependsOn(g, p, p);
    forall v | v in list ensures v == p || v == d {
      var w :| w in g[p] && Reaches(g, w, v);
      ClosedSetHoldsReachable(g, {p, d}, d, v);
    }
    assert list[0] == d && p in list;
    TwoValues(list, d, p);
  }

  lemma TwoValues(s: seq<nat>, a: nat, b: nat)
    requires s != [] && s[0] == a && b in s && a != b && (forall v :: v in s ==> v == a || v == b)
    requires forall i, j :: 0 <= i < j < |s| && 1 <= j ==> s[i] != s[j]
    ensures s == [a, b]
  {
    DistinctFits(s, {a, b});
    assert 1 < |s| && s[1] in s && s[0] != s[1];
  }

  /** Two new libraries that need each other, opened while others wait: they link to each other and the others are lost. */
  lemma MutualNeedLoses(g: Graph, p: nat, d: nat, list: seq<nat>, keep: set<Id>, links: Links, head: Ref, t: Trail)
    requires WellFormed(g) && p != d && p < |g| && d < |g| && g[p] == [d] && g[d] == [p] && IsBfsClosure(g, p, list)
    requires {p, d} <= keep && p !in t.s && d !in t.s && Follows(links, head, PushAll(t, Only([p] + list, keep)))
    ensures head == To(p) && Follow(links, p) == To(d) && Follow(links, d) == To(p)
    ensures forall o :: o in t.s ==> !Reached(links, head, o)
  {
    hide Follows, PushAll, Only, IsBfsClosure, WellFormed, Reached, Follow;
    MutualClosure(g, p, d, list);
    assert [p] + list == [p, d, p];
    OnlyAll([p, d, p], keep);
    MutualNeed(t, p, d);
    LinkedToEachOther(links, head, p, d);
    forall o | o in t.s ensures !Reached(links, head, o) {
      ReachedIsTrail(links, head, Trail([p, d], 0), o);
    }
  }

  lemma LinkedToEachOther(links: Links, head: Ref, p: Id, d: Id)
    requires Follows(links, head, Trail([p, d], 0))
    ensures head == To(p) && Follow(links, p) == To(d) && Follow(links, d) == To(p)
  {
    assert Follow(links, [p, d][0]) == Next(Trail([p, d], 0), 0) && Follow(links, [p, d][1]) == Next(Trail([p, d], 0), 1);
  }

  // ---------------------------------------------------------------------------------------------
  // Retrying what is on the trail
  // ---------------------------------------------------------------------------------------------

  lemma OnlyGrows(s: seq<Id>, keep: set<Id>, k: nat)
    requires k < |s|
    ensures Only(s[..k + 1], keep) == if s[k] in keep then Only(s[..k], keep) + [s[k]] else Only(s[..k], keep)
  {
    assert s[..k + 1][..k] == s[..k];
    assert Only(s[..k], keep) + [] == Only(s[..k], keep);
  }

  lemma PushAllGrows(t: Trail, list: seq<Id>, p: Id)
    ensures PushAll(t, list + [p]) == Push(PushAll(t, list), p)
  {
    assert (list + [p])[..|list|] == list;
  }

  /** The trail of those that the first visits keep. */
  function Once(s: seq<Id>, keep: set<Id>): Trail {
    PushAll(Trail([], 0), Only(s, keep))
  }

  /** Which are visited again: the links of those that were kept lead backwards already. */
  function Revisits(t: Trail, keep: set<Id>): seq<Id> {
    if t.back >= |t.s| then []
    else
      var q, r := t.s[t.back], Once(t.s, keep).s;
      if q in r then r[IndexOf(r, q)..] else [q]
  }

  /** The trail after every visited record was taken off and, if it is in keep, put in front again. */
  function Redone(t: Trail, keep: set<Id>): Trail {
    PushAll(Once(t.s, keep), Only(Revisits(t, keep), keep))
  }

  lemma OnceIsReversed(s: seq<Id>, keep: set<Id>)
    requires Distinct(s)
    ensures var r := Once(s, keep); r.Ends() && Distinct(r.s) && (forall d :: d in r.s <==> d in s && d in keep)
  {
    OnlyMembers(s, keep);
    var list := Only(s, keep);
    PushFresh(Trail([], 0), list);
    RevMembers(list);
    assert Rev(list) + [] == Rev(list);
  }

  /** Everything that is on the trail and in keep stays on it; a loop ends only if the record it leads back to goes. */
  lemma RedoneMembers(t: Trail, keep: set<Id>)
    requires Distinct(t.s) && t.back <= |t.s|
    ensures forall d :: d in Redone(t, keep).s <==> d in t.s && d in keep
    ensures Redone(t, keep).Ends() <==> t.Ends() || t.s[t.back] !in keep
  {
    var r := Once(t.s, keep);
    OnceIsReversed(t.s, keep);
    if t.Ends() {
      assert Only([], keep) == [];
    } else if t.s[t.back] !in keep {
      assert [t.s[t.back]][..0] == [] && Only([t.s[t.back]], keep) == [];
    } else {
      var k := IndexOf(r.s, t.s[t.back]);
      hide Only, Once, PushAll;
      OnlyAll(r.s[k..], keep);
      Rotated(r, k);
    }
  }

  /** Putting the end of a trail in front, one after the other, only changes the order. */
  lemma Rotated(r: Trail, k: nat)
    requires Distinct(r.s) && k < |r.s|
    ensures var t := PushAll(r, r.s[k..]); t.back < |t.s| && forall d :: d in t.s <==> d in r.s
  {
    var p, front, rest := r.s[k], r.s[..k], r.s[k + 1..];
    assert r.s[k..] == [p] + rest && r.s == front + [p] + rest;
    PushAllConcat(r, p, rest);
    PushAgain(r, k);
    RestApart(r.s, k);
    hide PushAll, Push, Distinct, Apart;
    PushFresh(Trail([p] + front, 0), rest);
    RevMembers(rest);
  }

  lemma PushAgain(r: Trail, k: nat)
    requires Distinct(r.s) && k < |r.s|
    ensures Push(r, r.s[k]) == Trail([r.s[k]] + r.s[..k], 0)
  {
    assert IndexOf(r.s, r.s[k]) == k;
  }

  lemma RestApart(s: seq<Id>, k: nat)
    requires Distinct(s) && k < |s|
    ensures Distinct(s[k + 1..]) && Apart(s[k + 1..], [s[k]] + s[..k])
  {
  }

  lemma {:induction false} PushAllConcat(t: Trail, p: Id, list: seq<Id>)
    ensures PushAll(t, [p] + list) == PushAll(Push(t, p), list)
  {
    var whole := [p] + list;
    if list == [] {
      assert whole == [p] && [p][..0] == [];
      assert PushAll(t, [p]) == Push(PushAll(t, [p][..0]), p);
    } else {
      PushAllConcat(t, p, list[..|list| - 1]);
      assert whole[..|whole| - 1] == [p] + list[..|list| - 1];
    }
  }

  lemma {:induction false} OnlyAll(s: seq<Id>, keep: set<Id>)
    requires forall d :: d in s ==> d in keep
    ensures Only(s, keep) == s
  {
    if s != [] {
      OnlyAll(s[..|s| - 1], keep);
      assert s == s[..|s| - 1] + [s[|s| - 1]];
    }
  }

  /** Links after the record p was visited. */
  function Visited(links: Links, head: Ref, p: Id, keep: set<Id>): Links {
    if p in keep then Linked(links, head, p) else links - {p}
  }

  function HeadAfter(head: Ref, p: Id, keep: set<Id>): Ref {
    if p in keep then To(p) else head
  }

  /** The first k records of t were visited once. */
  ghost predicate Early(links: Links, head: Ref, t: Trail, keep: set<Id>, k: nat) {
    && k <= |t.s| && Follows(links, head, Once(t.s[..k], keep))
    && (forall i :: k <= i < |t.s| ==> Follow(links, t.s[i]) == Next(t, i))
    && (forall i :: 0 <= i < k && t.s[i] !in keep ==> t.s[i] !in links)
  }

  /** All were, and the first k of those that are visited again. */
  ghost predicate Late(links: Links, head: Ref, t: Trail, keep: set<Id>, k: nat) {
    var again := Revisits(t, keep);
    && k <= |again| && Follows(links, head, PushAll(Once(t.s, keep), Only(again[..k], keep)))
    && (forall i :: k <= i < |again| ==> Follow(links, again[i]) == At(again, i + 1))
  }

  lemma EarlyBegins(links: Links, head: Ref, t: Trail, keep: set<Id>)
    requires Follows(links, head, t)
    ensures Early(links, Null, t, keep, 0)
  {
    assert t.s[..0] == [];
  }

  lemma EarlyStep(links: Links, head: Ref, t: Trail, keep: set<Id>, k: nat)
    requires Distinct(t.s) && k < |t.s| && Early(links, head, t, keep, k)
    ensures Follow(links, t.s[k]) == Next(t, k)
    ensures Early(Visited(links, head, t.s[k], keep), HeadAfter(head, t.s[k], keep), t, keep, k + 1)
  {
    var p := t.s[k];
    OnceStep(links, head, t, keep, k);
    hide Follows, Once;
  }

  lemma OnceStep(links: Links, head: Ref, t: Trail, keep: set<Id>, k: nat)
    requires Distinct(t.s) && k < |t.s| && Follows(links, head, Once(t.s[..k], keep))
    ensures Follows(Visited(links, head, t.s[k], keep), HeadAfter(head, t.s[k], keep), Once(t.s[..k + 1], keep))
  {
    var p := t.s[k];
    OnlyGrows(t.s, keep, k);
    if p in keep {
      PushAllGrows(Trail([], 0), Only(t.s[..k], keep), p);
      PushFollows(links, head, Once(t.s[..k], keep), p);
    } else {
      PrefixDistinct(t.s, k);
      OnceIsReversed(t.s[..k], keep);
      ForgetLink(links, head, Once(t.s[..k], keep), p);
    }
  }

  lemma PrefixDistinct(s: seq<Id>, k: nat)
    requires Distinct(s) && k <= |s|
    ensures Distinct(s[..k])
  {
  }

  lemma ForgetLink(links: Links, head: Ref, t: Trail, p: Id)
    requires Follows(links, head, t) && p !in t.s
    ensures Follows(links - {p}, head, t)
  {
  }

  lemma EarlyEnds(links: Links, head: Ref, t: Trail, keep: set<Id>)
    requires Distinct(t.s) && t.back <= |t.s| && Early(links, head, t, keep, |t.s|)
    ensures Late(links, head, t, keep, 0) && At(t.s, t.back) == At(Revisits(t, keep), 0)
  {
    assert t.s[..|t.s|] == t.s;
    assert Revisits(t, keep)[..0] == [] && Only([], keep) == [];
    OnceIsReversed(t.s, keep);
    var r, again := Once(t.s, keep), Revisits(t, keep);
    hide Once, Only;
    if !t.Ends() && t.s[t.back] in r.s {
      var k := IndexOf(r.s, t.s[t.back]);
      forall i | 0 <= i < |again| ensures Follow(links, again[i]) == At(again, i + 1) {
        assert Follow(links, r.s[k + i]) == Next(r, k + i);
      }
    }
  }

  lemma LateStep(links: Links, head: Ref, t: Trail, keep: set<Id>, k: nat)
    requires Distinct(t.s) && k < |Revisits(t, keep)| && Late(links, head, t, keep, k)
    ensures var again := Revisits(t, keep);
      && Follow(links, again[k]) == At(again, k + 1)
      && Late(Visited(links, head, again[k], keep), HeadAfter(head, again[k], keep), t, keep, k + 1)
  {
    var again := Revisits(t, keep);
    var p, before := again[k], PushAll(Once(t.s, keep), Only(again[..k], keep));
    hide Once, Only, Revisits, Follows, PushAll, Push;
    RevisitsKept(t, keep);
    OnlyGrows(again, keep, k);
    if p in keep {
      PushAllGrows(Once(t.s, keep), Only(again[..k], keep), p);
      PushFollows(links, head, before, p);
    } else {
      assert again == [p] && again[..0] == [];
      ForgottenTwice(links, head, t, keep, p);
    }
  }

  lemma RevisitsKept(t: Trail, keep: set<Id>)
    requires Distinct(t.s)
    ensures Distinct(Revisits(t, keep))
    ensures forall k :: 0 <= k < |Revisits(t, keep)| && Revisits(t, keep)[k] !in keep ==>
              Revisits(t, keep) == [Revisits(t, keep)[k]]
  {
    OnceIsReversed(t.s, keep);
    hide Once;
    var r := Once(t.s, keep).s;
    if !t.Ends() && t.back < |t.s| && t.s[t.back] in r {
      EndOfDistinct(r, IndexOf(r, t.s[t.back]));
    }
  }

  lemma EndOfDistinct(s: seq<Id>, i: nat)
    requires Distinct(s) && i <= |s|
    ensures Distinct(s[i..]) && forall k :: 0 <= k < |s[i..]| ==> s[i..][k] in s
  {
    assert forall k :: 0 <= k < |s| - i ==> s[i..][k] == s[i + k] && s[i + k] in s;
  }

  lemma ForgottenTwice(links: Links, head: Ref, t: Trail, keep: set<Id>, p: Id)
    requires Distinct(t.s) && p !in keep && Follows(links, head, PushAll(Once(t.s, keep), Only([], keep)))
    ensures Follows(links - {p}, head, PushAll(Once(t.s, keep), Only([], keep)))
  {
    OnceIsReversed(t.s, keep);
    assert Only([], keep) == [];
    hide Once;
    ForgetLink(links, head, Once(t.s, keep), p);
  }

  lemma LateEnds(links: Links, head: Ref, t: Trail, keep: set<Id>)
    requires Late(links, head, t, keep, |Revisits(t, keep)|)
    ensures Follows(links, head, Redone(t, keep))
  {
    assert Revisits(t, keep)[..|Revisits(t, keep)|] == Revisits(t, keep);
  }

  /** After i first visits and j further ones, p is visited next. */
  ghost predicate RedoAt(links: Links, head: Ref, t: Trail, keep: set<Id>, i: nat, j: nat, p: Ref) {
    && Distinct(t.s) && t.back <= |t.s| && i <= |t.s| && j <= |Revisits(t, keep)|
    && (i < |t.s| ==> Early(links, head, t, keep, i) && p == At(t.s, i) && j == 0)
    && (i == |t.s| ==> Late(links, head, t, keep, j) && p == At(Revisits(t, keep), j))
  }

  lemma RedoBegins(links: Links, head: Ref, t: Trail, keep: set<Id>)
    requires Follows(links, head, t)
    ensures RedoAt(links, Null, t, keep, 0, 0, head)
  {
    EarlyBegins(links, head, t, keep);
    assert Distinct(t.s) && t.back <= |t.s| && head == At(t.s, 0);
    hide Early, Late, Distinct, Revisits, Follows;
    if t.s == [] {
      EarlyEnds(links, Null, t, keep);
    }
  }

  lemma RedoEnds(links: Links, head: Ref, t: Trail, keep: set<Id>, i: nat, j: nat)
    requires RedoAt(links, head, t, keep, i, j, Null)
    ensures Follows(links, head, Redone(t, keep))
  {
    hide Early, Late, Distinct, Revisits, Follows, Redone;
    LateEnds(links, head, t, keep);
  }

  lemma RedoStep(links: Links, head: Ref, t: Trail, keep: set<Id>, i: nat, j: nat, p: Id)
    requires RedoAt(links, head, t, keep, i, j, To(p))
    ensures i < |t.s| || (i == |t.s| && j < |Revisits(t, keep)|)
    ensures var i', j' := if i < |t.s| then i + 1 else i, if i < |t.s| then j else j + 1;
      RedoAt(Visited(links, head, p, keep), HeadAfter(head, p, keep), t, keep, i', j', Follow(links, p))
  {
    hide Early, Late, Distinct, Revisits, Visited, HeadAfter, Follow;
    if i < |t.s| {
      EarlyStep(links, head, t, keep, i);
      if i + 1 == |t.s| {
        EarlyEnds(Visited(links, head, p, keep), HeadAfter(head, p, keep), t, keep);
      }
    } else {
      LateStep(links, head, t, keep, j);
    }
  }

  /**
   Over a whole call of dlopen: if no library is prepared twice, exactly those that waited before or are new, and
   still have something unresolved, are found afterwards. If one is, nothing that waited before is.
   */
  lemma WaitingAfterwards(t: Trail, list: seq<Id>, keep: set<Id>)
    requires Distinct(t.s) && t.back <= |t.s| && Apart(list, t.s)
    ensures var after := Redone(PushAll(t, list), keep);
      && (Distinct(list) ==> forall d :: d in after.s <==> d in keep && (d in t.s || d in list))
      && (Distinct(list) && t.Ends() ==> after.Ends())
      && (!Distinct(list) ==> forall d :: d in t.s ==> d !in after.s)
  {
    PushAllOk(t, list);
    RedoneMembers(PushAll(t, list), keep);
    hide Redone;
    if Distinct(list) {
      PushFresh(t, list);
      RevMembers(list);
    } else {
      PushLoses(t, list);
    }
  }

  lemma {:induction false} PushAllOk(t: Trail, list: seq<Id>)
    requires Distinct(t.s) && t.back <= |t.s|
    ensures Distinct(PushAll(t, list).s) && PushAll(t, list).back <= |PushAll(t, list).s|
  {
    if list != [] {
      PushAllOk(t, list[..|list| - 1]);
    }
  }
}
