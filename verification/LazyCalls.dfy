/**
 One call of dlopen seen from both sides: the libraries that the relocations of `LazyRun` leave something unresolved in
 are the ones that stay on the chain of `LazyLinks`.
 */
module LazyCalls {
  import opened Basics
  import opened LazyReloc
  import opened LazyChain
  import opened LazyRun
  import LazyLinks

  /** The numbers of libraries. */
  function Numbers(c: seq<Dso>, num: Dso -> nat): (s: seq<nat>)
    ensures |s| == |c|
  {
    seq(|c|, i requires 0 <= i < |c| => num(c[i]))
  }

  ghost predicate Numbered(num: Dso -> nat, ds: set<Dso>) {
    forall d, e :: d in ds && e in ds && num(d) == num(e) ==> d == e
  }

  ghost predicate Among(c: seq<Dso>, ds: set<Dso>) {
    forall d :: d in c ==> d in ds
  }

  /** The lazy chain, which ends. */
  function TrailOf(c: seq<Dso>, num: Dso -> nat): LazyLinks.Trail {
    LazyLinks.Trail(Numbers(c, num), |c|)
  }

  /** The libraries of the chain in which scope leaves something unresolved. */
  ghost function Unsettled(s: State, scope: Scope, num: Dso -> nat): set<nat>
    requires |s.c| == |s.es|
  {
    set i | 0 <= i < |s.c| && Unresolveds(s.c[i].tables, scope, s.es[i]) != [] :: num(s.c[i])
  }

  /** They are those with an entry that waits and that the scope does not resolve. */
  lemma UnsettledMeans(s: State, scope: Scope, num: Dso -> nat, ds: set<Dso>, d: Dso)
    requires ChainOk(s) && Numbered(num, ds) && Among(s.c, ds) && d in ds
    ensures num(d) in Unsettled(s, scope, num) <==> exists e :: Waits(s, d, e) && Resolve(d.tables, scope, e.info).Unresolved?
  {
    hide Resolve, DistinctSlots, Deferrable, Distinct;
    if num(d) in Unsettled(s, scope, num) {
      var i :| 0 <= i < |s.c| && Unresolveds(s.c[i].tables, scope, s.es[i]) != [] && num(s.c[i]) == num(d);
      assert s.c[i] in s.c;
      var u := Unresolveds(d.tables, scope, s.es[i]);
      UnresolvedMembers(d.tables, scope, s.es[i]);
      assert u[0] in u;
      assert Waits(s, d, u[0]);
    }
    if e :| Waits(s, d, e) && Resolve(d.tables, scope, e.info).Unresolved? {
      var i :| 0 <= i < |s.c| && s.c[i] == d && e in s.es[i];
      UnresolvedMembers(d.tables, scope, s.es[i]);
      assert e in Unresolveds(d.tables, scope, s.es[i]);
    }
  }

  /** Putting a library on the chain. */
  lemma PrepareIsPush(s: State, p: Dso, s': State, num: Dso -> nat, ds: set<Dso>)
    requires |s.c| == |s.es| && Step(s, Prepare(p), s') && Numbered(num, ds) && Among(s.c, ds) && p in ds
    ensures TrailOf(s'.c, num) == LazyLinks.Push(TrailOf(s.c, num), num(p))
  {
    var t := TrailOf(s.c, num);
    forall i | 0 <= i < |s.c| ensures t.s[i] != num(p) {
      assert s.c[i] in s.c;
    }
    assert Numbers(s'.c, num) == [num(p)] + t.s;
  }

  lemma NumbersDistinct(c: seq<Dso>, num: Dso -> nat, ds: set<Dso>)
    requires Distinct(c) && Numbered(num, ds) && Among(c, ds)
    ensures Distinct(Numbers(c, num))
  {
    forall i, j | 0 <= i < j < |c| ensures Numbers(c, num)[i] != Numbers(c, num)[j] {
      assert c[i] in c && c[j] in c;
    }
  }

  lemma InUnsettled(s: State, scope: Scope, num: Dso -> nat, ds: set<Dso>, k: nat)
    requires ChainOk(s) && Numbered(num, ds) && Among(s.c, ds) && k < |s.c|
    ensures num(s.c[k]) in Unsettled(s, scope, num) <==> Unresolveds(s.c[k].tables, scope, s.es[k]) != []
  {
    hide Unresolveds, Deferrable, DistinctSlots;
    if i :| 0 <= i < |s.c| && Unresolveds(s.c[i].tables, scope, s.es[i]) != [] && num(s.c[i]) == num(s.c[k]) {
      assert s.c[i] in s.c && s.c[k] in s.c;
    }
  }

  lemma {:induction false} KeptNumbers(s: State, scope: Scope, num: Dso -> nat, ds: set<Dso>, k: nat)
    requires ChainOk(s) && Numbered(num, ds) && Among(s.c, ds) && k <= |s.c|
    ensures Numbers(Kept(s.c, scope, s.es, k), num)
         == LazyLinks.Rev(LazyLinks.Only(Numbers(s.c, num)[..k], Unsettled(s, scope, num)))
  {
    var t, keep := Numbers(s.c, num), Unsettled(s, scope, num);
    if k == 0 {
      assert t[..0] == [];
    } else {
      assert t[k - 1] == num(s.c[k - 1]);
      hide Unresolveds, Orderly, Unsettled, Numbered, Among, Kept, Numbers, LazyLinks.Only, LazyLinks.Rev;
      KeptNumbers(s, scope, num, ds, k - 1);
      InUnsettled(s, scope, num, ds, k - 1);
      LazyLinks.OnlyGrows(t, keep, k - 1);
      OneKept(s, scope, num, k - 1, LazyLinks.Only(t[..k - 1], keep));
    }
  }

  lemma OneKept(s: State, scope: Scope, num: Dso -> nat, k: nat, list: seq<nat>)
    requires k < |s.c| == |s.es| && Numbers(Kept(s.c, scope, s.es, k), num) == LazyLinks.Rev(list)
    ensures Numbers(Kept(s.c, scope, s.es, k + 1), num)
         == LazyLinks.Rev(if Unresolveds(s.c[k].tables, scope, s.es[k]) != [] then list + [num(s.c[k])] else list)
  {
    NumbersInFront(s.c[k], Kept(s.c, scope, s.es, k), num);
    RevGrows(list, num(s.c[k]));
    hide Unresolveds, LazyLinks.Rev, Numbers;
  }

  lemma NumbersInFront(p: Dso, c: seq<Dso>, num: Dso -> nat)
    ensures Numbers([p] + c, num) == [num(p)] + Numbers(c, num) && [] + c == c
  {
  }

  lemma RevGrows(s: seq<nat>, p: nat)
    ensures LazyLinks.Rev(s + [p]) == [p] + LazyLinks.Rev(s)
  {
    assert (s + [p])[..|s|] == s;
  }

  /** A round of retries. */
  lemma RedoIsRedone(s: State, scope: Scope, s': State, num: Dso -> nat, ds: set<Dso>)
    requires ChainOk(s) && Step(s, Redo(scope), s') && Numbered(num, ds) && Among(s.c, ds)
    ensures TrailOf(s'.c, num) == LazyLinks.Redone(TrailOf(s.c, num), Unsettled(s, scope, num))
    ensures Among(s'.c, ds)
  {
    var t, keep := Numbers(s.c, num), Unsettled(s, scope, num);
    KeptNumbers(s, scope, num, ds, |s.c|);
    assert t[..|s.c|] == t && s.c[..|s.c|] == s.c;
    KeptOk(s, scope, |s.c|);
    NumbersDistinct(s.c, num, ds);
    RedoneEnding(t, keep);
  }

  lemma RedoneEnding(t: seq<nat>, keep: set<nat>)
    requires Distinct(t)
    ensures var r := LazyLinks.Rev(LazyLinks.Only(t, keep));
      LazyLinks.Redone(LazyLinks.Trail(t, |t|), keep) == LazyLinks.Trail(r, |r|)
  {
    var list := LazyLinks.Only(t, keep);
    LazyLinks.OnlyMembers(t, keep);
    LazyLinks.PushFresh(LazyLinks.Trail([], 0), list);
    LazyLinks.RevMembers(list);
    assert LazyLinks.Rev(list) + [] == LazyLinks.Rev(list);
  }

  /** The steps of a call: libraries are prepared, libraries are relocated, and everything that waits is retried. */
  ghost predicate IsCall(ss: seq<State>, events: seq<Event>, list: seq<Dso>) {
    && |ss| == |events| + 1 && |list| < |events|
    && (forall i :: 0 <= i < |events| ==> ChainOk(ss[i]) && Step(ss[i], events[i], ss[i + 1]))
    && (forall i :: 0 <= i < |list| ==> events[i] == Prepare(list[i]))
    && (forall i :: |list| <= i < |events| - 1 ==> events[i].Relocate?)
    && events[|events| - 1].Redo?
  }

  lemma {:induction false} BeforeRedo(ss: seq<State>, events: seq<Event>, list: seq<Dso>, num: Dso -> nat, ds: set<Dso>, n: nat)
    requires IsCall(ss, events, list) && Numbered(num, ds) && Among(ss[0].c, ds) && Among(list, ds) && n < |events|
    ensures Among(ss[n].c, ds)
    ensures var k := if n < |list| then n else |list|;
      TrailOf(ss[n].c, num) == LazyLinks.PushAll(TrailOf(ss[0].c, num), Numbers(list, num)[..k])
  {
    if n == 0 {
      assert Numbers(list, num)[..0] == [];
    } else {
      BeforeRedo(ss, events, list, num, ds, n - 1);
      assert Step(ss[n - 1], events[n - 1], ss[n]) && ChainOk(ss[n - 1]);
      hide Orderly, Numbered;
      if n <= |list| {
        assert events[n - 1] == Prepare(list[n - 1]) && list[n - 1] in list;
        PrepareIsPush(ss[n - 1], list[n - 1], ss[n], num, ds);
        var front := Numbers(list, num)[..n - 1];
        assert Numbers(list, num)[..n] == front + [num(list[n - 1])];
        LazyLinks.PushAllGrows(TrailOf(ss[0].c, num), front, num(list[n - 1]));
      } else {
        assert events[n - 1].Relocate?;
      }
    }
  }

  /**
   Over a whole call the chain is what the links make it, where the libraries that stay are those in which the
   relocations of the call left an entry that the scope of the retry does not resolve.
   */
  lemma CallIsTrail(ss: seq<State>, events: seq<Event>, list: seq<Dso>, num: Dso -> nat, ds: set<Dso>)
    requires IsCall(ss, events, list) && Numbered(num, ds) && Among(ss[0].c, ds) && Among(list, ds)
    ensures var n := |events| - 1;
      && ChainOk(ss[n])
      && TrailOf(ss[n + 1].c, num)
         == LazyLinks.Redone(LazyLinks.PushAll(TrailOf(ss[0].c, num), Numbers(list, num)), Unsettled(ss[n], events[n].scope, num))
  {
    var n := |events| - 1;
    BeforeRedo(ss, events, list, num, ds, n);
    assert Numbers(list, num)[..|list|] == Numbers(list, num);
    assert ChainOk(ss[n]) && Step(ss[n], events[n], ss[n + 1]);
    hide Orderly, Numbered;
    RedoIsRedone(ss[n], events[n].scope, ss[n + 1], num, ds);
  }
}
