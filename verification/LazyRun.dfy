/**
 Deferral over whole runs: libraries are put on the lazy chain, relocated with deferrals, and retried whenever the
 global scope has grown. Memory ends up as if each had been relocated at once under the final scope, if no entry moves.
 */
module LazyRun {
  import opened Basics
  import opened Words
  import opened LazyReloc
  import opened LazyChain

  /** A library that was relocated: its entries, the scope of that moment, and whether it could defer. */
  datatype Load = Load(p: Dso, es: seq<Entry>, scope: Scope, waits: bool)

  /** The lazy chain with what waits, memory, and the libraries relocated so far. */
  datatype State = State(c: seq<Dso>, es: seq<seq<Entry>>, mem: Memory, loads: seq<Load>)

  /** prepare_lazy, reloc_all for one library, and redo_lazy_relocs. */
  datatype Event = Prepare(p: Dso) | Relocate(p: Dso, es: seq<Entry>, scope: Scope) | Redo(scope: Scope)

  ghost predicate Step(s: State, e: Event, s': State)
    requires |s.c| == |s.es|
  {
    match e
    case Prepare(p) => p !in s.c && s' == s.(c := [p] + s.c, es := [[]] + s.es)
    case Relocate(p, es, scope) =>
      var r := Pass(p.tables, scope, p in s.c, s.mem, es);
      && (forall l :: l in s.loads ==> l.p != p) && r.ok
      && s'.c == s.c && s'.mem == r.mem && s'.loads == s.loads + [Load(p, es, scope, p in s.c)] && |s'.es| == |s.es|
      && forall k :: 0 <= k < |s.c| ==> s'.es[k] == if s.c[k] == p then r.deferred else s.es[k]
    case Redo(scope) =>
      s' == State(Kept(s.c, scope, s.es, |s.c|), KeptEntries(s.c, scope, s.es, |s.c|),
                  RetriedMemory(s.c, scope, s.mem, s.es, |s.c|), s.loads)
  }

  /** Each library of a chain once, each with entries that may wait. */
  ghost predicate Orderly(c: seq<Dso>, es: seq<seq<Entry>>) {
    && |c| == |es| && Distinct(c)
    && forall i :: 0 <= i < |c| ==> Deferrable(c[i].tables, es[i]) && DistinctSlots(c[i].tables, es[i])
  }

  /** The entry e of the library d waits, among the first k libraries. */
  ghost predicate WaitsIn(c: seq<Dso>, es: seq<seq<Entry>>, k: nat, d: Dso, e: Entry)
    requires k <= |c| == |es|
  {
    exists i :: 0 <= i < k && c[i] == d && e in es[i]
  }

  ghost predicate Waits(s: State, d: Dso, e: Entry)
    requires |s.c| == |s.es|
  {
    WaitsIn(s.c, s.es, |s.c|, d, e)
  }

  ghost predicate Touched(l: Load, a: Word) {
    Touches(l.p.tables, l.es, a)
  }

  /** No slot is relocated twice. */
  ghost predicate AllDistinct(loads: seq<Load>) {
    && (forall i :: 0 <= i < |loads| ==> DistinctSlots(loads[i].p.tables, loads[i].es))
    && (forall i, j, a :: 0 <= i < j < |loads| && Touched(loads[i], a) ==> !Touched(loads[j], a))
  }

  /** What waits of an entry that was deferred with this addend. */
  function Deferred(e: Entry, addend: Word): Entry {
    Entry(e.offset, e.info, Some(addend))
  }

  /** The slot of an entry: as it was handled, or settled as the final scope has it, or still untouched. */
  ghost predicate Outcome(s: State, l: Load, e: Entry, mem0: Memory, final: Scope)
    requires |s.c| == |s.es|
  {
    var t := l.p.tables;
    var v, now := Judge(t, l.scope, l.waits, mem0, e), Read(s.mem, Slot(t, e));
    && !v.Fail? && (v.Write? ==> now == v.value)
    && (v.Defer? ==>
          l.waits &&
          if Waits(s, l.p, Deferred(e, v.addend)) then now == Read(mem0, Slot(t, e))
          else Judge(t, final, false, mem0, e) == Write(now))
  }

  ghost predicate ChainOk(s: State) {
    Orderly(s.c, s.es)
  }

  /** What waits was deferred by a load. */
  ghost predicate FromLoad(l: Load, mem0: Memory, d: Dso, e: Entry) {
    l.p == d && l.waits && exists k :: 0 <= k < |l.es| && DefersTo(d.tables, l.scope, mem0, l.es[k], e)
  }

  ghost predicate Origin(s: State, mem0: Memory)
    requires |s.c| == |s.es|
  {
    forall d, e :: d in s.c && Waits(s, d, e) ==> exists i :: 0 <= i < |s.loads| && FromLoad(s.loads[i], mem0, d, e)
  }

  ghost predicate Outcomes(s: State, mem0: Memory, final: Scope)
    requires |s.c| == |s.es|
  {
    forall i, k :: 0 <= i < |s.loads| && 0 <= k < |s.loads[i].es| && Relocates(s.loads[i].p.tables, s.loads[i].es[k]) ==>
      Outcome(s, s.loads[i], s.loads[i].es[k], mem0, final)
  }

  ghost predicate Elsewhere(s: State, mem0: Memory) {
    forall a :: (forall i :: 0 <= i < |s.loads| ==> !Touched(s.loads[i], a)) ==> Read(s.mem, a) == Read(mem0, a)
  }

  ghost predicate Inv(s: State, mem0: Memory, final: Scope) {
    ChainOk(s) && Origin(s, mem0) && Outcomes(s, mem0, final) && Elsewhere(s, mem0)
  }

  // ---------------------------------------------------------------------------------------------
  // One round of retries
  // ---------------------------------------------------------------------------------------------

  lemma UnresolvedMembers(t: Tables, scope: Scope, es: seq<Entry>)
    requires DistinctSlots(t, es)
    ensures forall e :: e in Unresolveds(t, scope, es) <==> e in es && Resolve(t, scope, e.info).Unresolved?
    ensures DistinctSlots(t, Unresolveds(t, scope, es))
  {
    NothingResolved(t, es);
    UnresolvedStep(t, [], scope, es);
    assert [] + [scope] == [scope];
    StillUnresolvedMembers(t, [scope], es);
    assert [scope][..0] == [];
    assert forall e: Entry :: FirstResolution(t, [scope], e.info) == Resolve(t, scope, e.info);
  }

  lemma InFront(p: Dso, u: seq<Entry>, c: seq<Dso>, es: seq<seq<Entry>>, d: Dso, e: Entry)
    requires |c| == |es|
    ensures WaitsIn([p] + c, [u] + es, |c| + 1, d, e) <==> (d == p && e in u) || WaitsIn(c, es, |c|, d, e)
  {
    var c', es' := [p] + c, [u] + es;
    if d == p && e in u {
      assert c'[0] == d && e in es'[0];
    }
    if i :| 0 <= i < |c| && c[i] == d && e in es[i] {
      assert c'[i + 1] == d && e in es'[i + 1];
    }
    if i :| 0 <= i < |c'| && c'[i] == d && e in es'[i] {
      if i > 0 {
        assert c[i - 1] == d && e in es[i - 1];
      }
    }
  }

  lemma OneMore(c: seq<Dso>, es: seq<seq<Entry>>, k: nat, d: Dso, e: Entry)
    requires k < |c| == |es|
    ensures WaitsIn(c, es, k + 1, d, e) <==> WaitsIn(c, es, k, d, e) || (d == c[k] && e in es[k])
  {
  }

  lemma OrderlyCons(p: Dso, u: seq<Entry>, c: seq<Dso>, es: seq<seq<Entry>>)
    requires Orderly(c, es) && p !in c && Deferrable(p.tables, u) && DistinctSlots(p.tables, u)
    ensures Orderly([p] + c, [u] + es)
  {
    hide Deferrable, DistinctSlots;
  }

  /** The first k libraries after a retry, as far as something still waits in them. */
  ghost predicate KeptFacts(s: State, scope: Scope, k: nat)
    requires k <= |s.c| == |s.es|
  {
    var c, es := Kept(s.c, scope, s.es, k), KeptEntries(s.c, scope, s.es, k);
    && Orderly(c, es) && (forall d :: d in c ==> d in s.c[..k])
    && forall d, e :: d in s.c ==>
         (WaitsIn(c, es, |c|, d, e) <==> WaitsIn(s.c, s.es, k, d, e) && Resolve(d.tables, scope, e.info).Unresolved?)
  }

  lemma MaybeInFront(p: Dso, u: seq<Entry>, c: seq<Dso>, es: seq<seq<Entry>>)
    requires Orderly(c, es) && p !in c && Deferrable(p.tables, u) && DistinctSlots(p.tables, u)
    ensures var c', es' := (if u != [] then [p] else []) + c, (if u != [] then [u] else []) + es;
      && Orderly(c', es') && (forall d :: d in c' ==> d == p || d in c)
      && forall d, e :: WaitsIn(c', es', |c'|, d, e) <==> (d == p && e in u) || WaitsIn(c, es, |c|, d, e)
  {
    if u == [] {
      assert [] + c == c && [] + es == es;
    } else {
      OrderlyCons(p, u, c, es);
      assert |[p] + c| == |c| + 1;
      hide Orderly, WaitsIn;
      forall d, e ensures WaitsIn([p] + c, [u] + es, |[p] + c|, d, e) <==> (d == p && e in u) || WaitsIn(c, es, |c|, d, e) {
        InFront(p, u, c, es, d, e);
      }
    }
  }

  lemma {:induction false} KeptOk(s: State, scope: Scope, k: nat)
    requires ChainOk(s) && k <= |s.c|
    ensures KeptFacts(s, scope, k)
  {
    if k > 0 {
      KeptOk(s, scope, k - 1);
      KeptStep(s, scope, k - 1);
    } else {
      assert Orderly([], []);
    }
  }

  lemma KeptStep(s: State, scope: Scope, k: nat)
    requires ChainOk(s) && k < |s.c| && KeptFacts(s, scope, k)
    ensures KeptFacts(s, scope, k + 1)
  {
    var p, c, es := s.c[k], Kept(s.c, scope, s.es, k), KeptEntries(s.c, scope, s.es, k);
    var u := Unresolveds(p.tables, scope, s.es[k]);
    assert p !in s.c[..k] && forall d :: d in s.c[..k + 1] <==> d == p || d in s.c[..k];
    UnresolvedMembers(p.tables, scope, s.es[k]);
    hide Resolve, DistinctSlots, Unresolveds, Distinct, Orderly, WaitsIn;
    assert Deferrable(p.tables, u);
    assert Kept(s.c, scope, s.es, k + 1) == (if u != [] then [p] else []) + c;
    assert KeptEntries(s.c, scope, s.es, k + 1) == (if u != [] then [u] else []) + es;
    hide Deferrable, Kept, KeptEntries;
    MaybeInFront(p, u, c, es);
    var c', es' := Kept(s.c, scope, s.es, k + 1), KeptEntries(s.c, scope, s.es, k + 1);
    forall d, e | d in s.c
      ensures WaitsIn(c', es', |c'|, d, e) <==> WaitsIn(s.c, s.es, k + 1, d, e) && Resolve(d.tables, scope, e.info).Unresolved?
    {
      OneMore(s.c, s.es, k, d, e);
    }
  }

  /** What waits in different libraries has different slots. */
  ghost predicate SlotsApart(c: seq<Dso>, es: seq<seq<Entry>>) {
    |c| == |es| && forall i, j, a :: 0 <= i < j < |c| && HasSlot(c[i].tables, es[i], a) ==> !HasSlot(c[j].tables, es[j], a)
  }

  ghost predicate HasSlot(t: Tables, es: seq<Entry>, a: Word) {
    exists e :: e in es && Slot(t, e) == a
  }

  /** The slot of a waiting entry after a retry. */
  function Retried(t: Tables, scope: Scope, mem: Memory, e: Entry): Word
    requires e.addend.Some?
  {
    var v := Resolve(t, scope, e.info);
    if v.Resolved? then Add(v.value, e.addend.value) else Read(mem, Slot(t, e))
  }

  ghost predicate RoundFacts(s: State, scope: Scope, k: nat)
    requires ChainOk(s) && k <= |s.c|
  {
    var mem := RetriedMemory(s.c, scope, s.mem, s.es, k);
    && (forall i, e :: 0 <= i < k && e in s.es[i] ==>
          Read(mem, Slot(s.c[i].tables, e)) == Retried(s.c[i].tables, scope, s.mem, e))
    && (forall a :: (forall i :: 0 <= i < k ==> !HasSlot(s.c[i].tables, s.es[i], a)) ==> Read(mem, a) == Read(s.mem, a))
  }

  lemma {:induction false} RoundSlots(s: State, scope: Scope, k: nat)
    requires ChainOk(s) && SlotsApart(s.c, s.es) && k <= |s.c|
    ensures RoundFacts(s, scope, k)
  {
    if k > 0 {
      hide RoundFacts, Orderly, SlotsApart;
      RoundSlots(s, scope, k - 1);
      RoundStep(s, scope, k - 1);
    }
  }

  lemma RoundStep(s: State, scope: Scope, k: nat)
    requires ChainOk(s) && SlotsApart(s.c, s.es) && k < |s.c| && RoundFacts(s, scope, k)
    ensures RoundFacts(s, scope, k + 1)
  {
    var t, es := s.c[k].tables, s.es[k];
    var mem, mem' := RetriedMemory(s.c, scope, s.mem, s.es, k), RetriedMemory(s.c, scope, s.mem, s.es, k + 1);
    assert mem' == Pass(t, scope, true, mem, es).mem;
    hide Pass, RetriedMemory, Resolve, Add, Slot, DistinctSlots, Distinct;
    forall e | e in es ensures Read(mem', Slot(t, e)) == Retried(t, scope, s.mem, e) {
      RetrySlot(t, scope, mem, es, e);
      assert HasSlot(t, es, Slot(t, e));
    }
    forall i, e | 0 <= i < k && e in s.es[i]
      ensures Read(mem', Slot(s.c[i].tables, e)) == Retried(s.c[i].tables, scope, s.mem, e)
    {
      assert HasSlot(s.c[i].tables, s.es[i], Slot(s.c[i].tables, e));
      NoSlot(t, es, Slot(s.c[i].tables, e));
      RetryElsewhere(t, scope, mem, es, Slot(s.c[i].tables, e));
    }
    forall a | forall i :: 0 <= i < k + 1 ==> !HasSlot(s.c[i].tables, s.es[i], a) ensures Read(mem', a) == Read(s.mem, a) {
      NoSlot(t, es, a);
      RetryElsewhere(t, scope, mem, es, a);
    }
  }

  lemma NoSlot(t: Tables, es: seq<Entry>, a: Word)
    requires !HasSlot(t, es, a)
    ensures forall e :: e in es ==> Slot(t, e) != a
  {
  }

  // ---------------------------------------------------------------------------------------------
  // What every step keeps
  // ---------------------------------------------------------------------------------------------

  /** A waiting entry has the slot of one entry of one load only, which was deferred to it. */
  lemma WaitingOwner(s: State, mem0: Memory, d: Dso, e: Entry, i: nat, k: nat)
    requires ChainOk(s) && Origin(s, mem0) && AllDistinct(s.loads) && d in s.c && Waits(s, d, e)
    requires i < |s.loads| && k < |s.loads[i].es| && Relocates(s.loads[i].p.tables, s.loads[i].es[k])
    requires Slot(s.loads[i].p.tables, s.loads[i].es[k]) == Slot(d.tables, e)
    ensures s.loads[i].p == d && s.loads[i].waits && DefersTo(d.tables, s.loads[i].scope, mem0, s.loads[i].es[k], e)
  {
    hide Orderly, Waits, Judge, Slot, DistinctSlots;
    var j :| 0 <= j < |s.loads| && FromLoad(s.loads[j], mem0, d, e);
    var m :| 0 <= m < |s.loads[j].es| && DefersTo(d.tables, s.loads[j].scope, mem0, s.loads[j].es[m], e);
    DeferredSlot(d.tables, s.loads[j].scope, mem0, s.loads[j].es[m], e);
    assert Touched(s.loads[i], Slot(d.tables, e)) && Touched(s.loads[j], Slot(d.tables, e));
    assert i == j;
    SameSlot(d.tables, s.loads[j].es, k, m);
  }

  lemma DeferredSlot(t: Tables, scope: Scope, mem: Memory, e: Entry, d: Entry)
    requires DefersTo(t, scope, mem, e, d)
    ensures Relocates(t, e) && Slot(t, e) == Slot(t, d) && d == Deferred(e, Judge(t, scope, true, mem, e).addend)
  {
  }

  lemma SameSlot(t: Tables, es: seq<Entry>, k: nat, m: nat)
    requires DistinctSlots(t, es) && k < |es| && m < |es| && Relocates(t, es[k]) && Relocates(t, es[m])
    requires Slot(t, es[k]) == Slot(t, es[m])
    ensures k == m
  {
  }

  lemma ChainApart(s: State, mem0: Memory)
    requires ChainOk(s) && Origin(s, mem0) && AllDistinct(s.loads)
    ensures SlotsApart(s.c, s.es)
  {
    hide Judge, Slot, DistinctSlots, DefersTo, AllDistinct, Origin;
    forall i, j, a | 0 <= i < j < |s.c| && HasSlot(s.c[i].tables, s.es[i], a) ensures !HasSlot(s.c[j].tables, s.es[j], a) {
      var e :| e in s.es[i] && Slot(s.c[i].tables, e) == a;
      assert Waits(s, s.c[i], e);
      forall e' | e' in s.es[j] ensures Slot(s.c[j].tables, e') != a {
        assert Waits(s, s.c[j], e');
        OneOwner(s, mem0, s.c[i], e, s.c[j], e');
      }
    }
  }

  lemma OneOwner(s: State, mem0: Memory, d: Dso, e: Entry, d': Dso, e': Entry)
    requires ChainOk(s) && Origin(s, mem0) && AllDistinct(s.loads) && d in s.c && Waits(s, d, e) && d' in s.c && Waits(s, d', e')
    ensures Slot(d.tables, e) == Slot(d'.tables, e') ==> d == d'
  {
    hide Orderly, Waits, Judge, Slot, AllDistinct;
    var i :| 0 <= i < |s.loads| && FromLoad(s.loads[i], mem0, d, e);
    var k :| 0 <= k < |s.loads[i].es| && DefersTo(d.tables, s.loads[i].scope, mem0, s.loads[i].es[k], e);
    DeferredSlot(d.tables, s.loads[i].scope, mem0, s.loads[i].es[k], e);
    if Slot(d.tables, e) == Slot(d'.tables, e') {
      WaitingOwner(s, mem0, d', e', i, k);
    }
  }

  lemma PrepareKeeps(s: State, p: Dso, s': State, mem0: Memory, final: Scope)
    requires Inv(s, mem0, final) && Step(s, Prepare(p), s')
    ensures Inv(s', mem0, final)
  {
    assert Deferrable(p.tables, []) && DistinctSlots(p.tables, []);
    OrderlyCons(p, [], s.c, s.es);
    forall d, e ensures Waits(s', d, e) <==> Waits(s, d, e) {
      InFront(p, [], s.c, s.es, d, e);
    }
    SameWaiting(s, s', mem0, final);
  }

  /** Memory, the loads and what waits determine the rest of the invariant. */
  lemma SameWaiting(s: State, s': State, mem0: Memory, final: Scope)
    requires Inv(s, mem0, final) && ChainOk(s') && s'.mem == s.mem && s'.loads == s.loads
    requires forall d, e :: Waits(s', d, e) <==> Waits(s, d, e)
    ensures Inv(s', mem0, final)
  {
    hide Distinct, Deferrable, Judge, DistinctSlots, FromLoad;
    forall d, e | d in s'.c && Waits(s', d, e) ensures exists i :: 0 <= i < |s'.loads| && FromLoad(s'.loads[i], mem0, d, e) {
      WaitsMember(s, d, e);
    }
    hide Waits;
    assert Outcomes(s', mem0, final);
  }

  lemma WaitsMember(s: State, d: Dso, e: Entry)
    requires |s.c| == |s.es| && Waits(s, d, e)
    ensures d in s.c
  {
  }

  /** What relocating the entries es of p did, seen from memory as it was at the start of the run. */
  ghost predicate Relocation(s: State, p: Dso, es: seq<Entry>, scope: Scope, s': State, mem0: Memory) {
    var t, waits := p.tables, p in s.c;
    && (forall k :: 0 <= k < |es| && Relocates(t, es[k]) ==>
          && Read(s.mem, Slot(t, es[k])) == Read(mem0, Slot(t, es[k]))
          && Read(s'.mem, Slot(t, es[k])) == SlotValue(t, scope, waits, mem0, es[k])
          && !Judge(t, scope, waits, mem0, es[k]).Fail?)
    && (forall a :: Touches(t, es, a) || Read(s'.mem, a) == Read(s.mem, a))
  }

  /** What it deferred. */
  ghost predicate Deferral(t: Tables, es: seq<Entry>, scope: Scope, deferred: seq<Entry>, mem0: Memory) {
    && Deferrable(t, deferred) && DistinctSlots(t, deferred)
    && (forall e :: e in deferred ==> exists k :: 0 <= k < |es| && DefersTo(t, scope, mem0, es[k], e))
    && forall k :: 0 <= k < |es| && Judge(t, scope, true, mem0, es[k]).Defer? ==>
                     Deferred(es[k], Judge(t, scope, true, mem0, es[k]).addend) in deferred
  }

  /** The slots of a library that is relocated for the first time are as they were. */
  lemma Untouched(s: State, p: Dso, es: seq<Entry>, scope: Scope, s': State, mem0: Memory, k: nat)
    requires |s.c| == |s.es| && Step(s, Relocate(p, es, scope), s') && Elsewhere(s, mem0) && AllDistinct(s'.loads) && k < |es|
    ensures DistinctSlots(p.tables, es)
    ensures Relocates(p.tables, es[k]) ==> Read(s.mem, Slot(p.tables, es[k])) == Read(mem0, Slot(p.tables, es[k]))
    ensures Judge(p.tables, scope, p in s.c, s.mem, es[k]) == Judge(p.tables, scope, p in s.c, mem0, es[k])
  {
    hide Pass, DistinctSlots, Slot;
    var n := |s.loads|;
    assert s'.loads[n].p == p && s'.loads[n].es == es;
    if Relocates(p.tables, es[k]) {
      var a := Slot(p.tables, es[k]);
      assert Touched(s'.loads[n], a);
      forall i | 0 <= i < n ensures !Touched(s.loads[i], a) {
        assert s'.loads[i] == s.loads[i];
      }
      JudgeLocal(p.tables, scope, p in s.c, s.mem, mem0, es[k]);
    } else {
      NoRelocSkips(p.tables, scope, p in s.c, s.mem, es[k]);
      NoRelocSkips(p.tables, scope, p in s.c, mem0, es[k]);
    }
  }

  lemma RelocateFacts(s: State, p: Dso, es: seq<Entry>, scope: Scope, s': State, mem0: Memory)
    requires |s.c| == |s.es| && Step(s, Relocate(p, es, scope), s') && Elsewhere(s, mem0) && AllDistinct(s'.loads)
    ensures Relocation(s, p, es, scope, s', mem0)
  {
    assert s'.loads[|s.loads|].es == es;
    PassPointwise(p.tables, scope, p in s.c, s.mem, es);
    hide Pass, DistinctSlots, Slot, Judge, Touches;
    forall k | 0 <= k < |es| && Relocates(p.tables, es[k])
      ensures && Read(s.mem, Slot(p.tables, es[k])) == Read(mem0, Slot(p.tables, es[k]))
              && Read(s'.mem, Slot(p.tables, es[k])) == SlotValue(p.tables, scope, p in s.c, mem0, es[k])
              && !Judge(p.tables, scope, p in s.c, mem0, es[k]).Fail?
    {
      Untouched(s, p, es, scope, s', mem0, k);
    }
  }

  lemma DeferralFacts(s: State, p: Dso, es: seq<Entry>, scope: Scope, s': State, mem0: Memory)
    requires |s.c| == |s.es| && Step(s, Relocate(p, es, scope), s') && Elsewhere(s, mem0) && AllDistinct(s'.loads) && p in s.c
    ensures Deferral(p.tables, es, scope, Pass(p.tables, scope, true, s.mem, es).deferred, mem0)
  {
    assert s'.loads[|s.loads|].es == es;
    var t := p.tables;
    PassPointwise(t, scope, true, s.mem, es);
    WaitingIsDeferrable(t, scope, s.mem, es);
    WaitingMembers(t, scope, s.mem, es);
    var deferred := Pass(t, scope, true, s.mem, es).deferred;
    hide Pass, DistinctSlots, Slot, Judge, Waiting, Deferrable;
    forall e | e in deferred ensures exists k :: 0 <= k < |es| && DefersTo(t, scope, mem0, es[k], e) {
      var k :| 0 <= k < |es| && DefersTo(t, scope, s.mem, es[k], e);
      Untouched(s, p, es, scope, s', mem0, k);
      assert DefersTo(t, scope, mem0, es[k], e);
    }
    forall k | 0 <= k < |es| && Judge(t, scope, true, mem0, es[k]).Defer?
      ensures Deferred(es[k], Judge(t, scope, true, mem0, es[k]).addend) in deferred
    {
      Untouched(s, p, es, scope, s', mem0, k);
    }
  }

  lemma RelocateWaits(s: State, p: Dso, es: seq<Entry>, scope: Scope, s': State, mem0: Memory, d: Dso, e: Entry)
    requires ChainOk(s) && Origin(s, mem0) && Step(s, Relocate(p, es, scope), s')
    ensures |s'.c| == |s'.es|
    ensures var deferred := Pass(p.tables, scope, true, s.mem, es).deferred;
      Waits(s', d, e) <==> if d == p then p in s.c && e in deferred else Waits(s, d, e)
    ensures !Waits(s, p, e)
  {
    hide Pass, Deferrable, DistinctSlots, Judge;
    forall i | 0 <= i < |s.loads| ensures !FromLoad(s.loads[i], mem0, p, e) {
      assert s.loads[i] in s.loads;
    }
    if d == p && p in s.c && e in Pass(p.tables, scope, true, s.mem, es).deferred {
      var k :| 0 <= k < |s.c| && s.c[k] == p;
      assert s'.c[k] == p && e in s'.es[k];
    }
    if d != p && Waits(s, d, e) {
      var k :| 0 <= k < |s.c| && s.c[k] == d && e in s.es[k];
      assert s'.c[k] == d && e in s'.es[k];
    }
  }

  lemma RelocateKeeps(s: State, p: Dso, es: seq<Entry>, scope: Scope, s': State, mem0: Memory, final: Scope)
    requires Inv(s, mem0, final) && Step(s, Relocate(p, es, scope), s') && AllDistinct(s'.loads)
    ensures Inv(s', mem0, final)
  {
    RelocateFacts(s, p, es, scope, s', mem0);
    if p in s.c { DeferralFacts(s, p, es, scope, s', mem0); }
    RelocateChain(s, p, es, scope, s', mem0);
    RelocateOrigin(s, p, es, scope, s', mem0);
    RelocateOutcomes(s, p, es, scope, s', mem0, final);
    hide Pass, AllDistinct, Step, ChainOk, Origin, Outcomes;
    assert Elsewhere(s', mem0) by { RelocateElsewhere(s, p, es, scope, s', mem0); }
  }

  lemma RelocateElsewhere(s: State, p: Dso, es: seq<Entry>, scope: Scope, s': State, mem0: Memory)
    requires |s.c| == |s.es| && Elsewhere(s, mem0) && Step(s, Relocate(p, es, scope), s') && Relocation(s, p, es, scope, s', mem0)
    ensures Elsewhere(s', mem0)
  {
    hide Pass, Judge, Touches, Slot;
    forall a | forall i :: 0 <= i < |s'.loads| ==> !Touched(s'.loads[i], a) ensures Read(s'.mem, a) == Read(mem0, a) {
      assert s'.loads[|s.loads|].es == es && s'.loads[|s.loads|].p == p;
      assert !Touches(p.tables, es, a);
      assert forall i :: 0 <= i < |s.loads| ==> s'.loads[i] == s.loads[i];
    }
  }

  lemma RelocateChain(s: State, p: Dso, es: seq<Entry>, scope: Scope, s': State, mem0: Memory)
    requires ChainOk(s) && Step(s, Relocate(p, es, scope), s')
    requires p in s.c ==> Deferral(p.tables, es, scope, Pass(p.tables, scope, true, s.mem, es).deferred, mem0)
    ensures ChainOk(s')
  {
    hide Pass, Deferrable, DistinctSlots, Judge, DefersTo;
  }

  lemma RelocateOrigin(s: State, p: Dso, es: seq<Entry>, scope: Scope, s': State, mem0: Memory)
    requires ChainOk(s) && ChainOk(s') && Origin(s, mem0) && Step(s, Relocate(p, es, scope), s')
    requires p in s.c ==> Deferral(p.tables, es, scope, Pass(p.tables, scope, true, s.mem, es).deferred, mem0)
    ensures Origin(s', mem0)
  {
    hide Pass, Deferrable, DistinctSlots, Judge, DefersTo, Distinct, Waits;
    forall d, e | d in s'.c && Waits(s', d, e) ensures exists i :: 0 <= i < |s'.loads| && FromLoad(s'.loads[i], mem0, d, e) {
      RelocateWaits(s, p, es, scope, s', mem0, d, e);
      if d == p {
        assert FromLoad(s'.loads[|s.loads|], mem0, d, e);
      } else {
        var i :| 0 <= i < |s.loads| && FromLoad(s.loads[i], mem0, d, e);
        assert FromLoad(s'.loads[i], mem0, d, e);
      }
    }
  }

  lemma RelocateOutcomes(s: State, p: Dso, es: seq<Entry>, scope: Scope, s': State, mem0: Memory, final: Scope)
    requires ChainOk(s) && ChainOk(s') && Origin(s, mem0) && Outcomes(s, mem0, final) && Step(s, Relocate(p, es, scope), s')
    requires AllDistinct(s'.loads) && Relocation(s, p, es, scope, s', mem0)
    requires p in s.c ==> Deferral(p.tables, es, scope, Pass(p.tables, scope, true, s.mem, es).deferred, mem0)
    ensures Outcomes(s', mem0, final)
  {
    var n := |s.loads|;
    assert s'.loads[n] == Load(p, es, scope, p in s.c);
    hide Pass, Deferrable, DistinctSlots, Judge, DefersTo, Distinct, Waits, Outcome;
    forall i, k | 0 <= i < |s'.loads| && 0 <= k < |s'.loads[i].es| && Relocates(s'.loads[i].p.tables, s'.loads[i].es[k])
      ensures Outcome(s', s'.loads[i], s'.loads[i].es[k], mem0, final)
    {
      if i < n {
        assert s'.loads[i] == s.loads[i] && s.loads[i] in s.loads;
        OldOutcome(s, p, es, scope, s', mem0, final, i, k);
      } else {
        NewOutcome(s, p, es, scope, s', mem0, final, k);
      }
    }
  }

  lemma OldOutcome(s: State, p: Dso, es: seq<Entry>, scope: Scope, s': State, mem0: Memory, final: Scope, i: nat, k: nat)
    requires ChainOk(s) && ChainOk(s') && Origin(s, mem0) && Step(s, Relocate(p, es, scope), s')
    requires AllDistinct(s'.loads) && Relocation(s, p, es, scope, s', mem0)
    requires i < |s.loads| && k < |s.loads[i].es| && Relocates(s.loads[i].p.tables, s.loads[i].es[k])
    requires s'.loads[i] == s.loads[i] && s'.loads[|s.loads|] == Load(p, es, scope, p in s.c) && s.loads[i].p != p
    requires Outcome(s, s.loads[i], s.loads[i].es[k], mem0, final)
    ensures Outcome(s', s.loads[i], s.loads[i].es[k], mem0, final)
  {
    hide Pass, Deferrable, DistinctSlots, Judge, DefersTo, Distinct, Waits, Slot;
    var l, e := s.loads[i], s.loads[i].es[k];
    assert Touched(s'.loads[i], Slot(l.p.tables, e)) && !Touched(s'.loads[|s.loads|], Slot(l.p.tables, e));
    var v := Judge(l.p.tables, l.scope, l.waits, mem0, e);
    if v.Defer? {
      RelocateWaits(s, p, es, scope, s', mem0, l.p, Deferred(e, v.addend));
    }
  }

  lemma NewOutcome(s: State, p: Dso, es: seq<Entry>, scope: Scope, s': State, mem0: Memory, final: Scope, k: nat)
    requires ChainOk(s) && ChainOk(s') && Origin(s, mem0) && Step(s, Relocate(p, es, scope), s')
    requires Relocation(s, p, es, scope, s', mem0) && k < |es| && Relocates(p.tables, es[k])
    requires p in s.c ==> Deferral(p.tables, es, scope, Pass(p.tables, scope, true, s.mem, es).deferred, mem0)
    ensures Outcome(s', Load(p, es, scope, p in s.c), es[k], mem0, final)
  {
    var v := Judge(p.tables, scope, p in s.c, mem0, es[k]);
    NoDefer(p.tables, scope, mem0, es[k]);
    hide Pass, Deferrable, DistinctSlots, Judge, DefersTo, Distinct, Waits, Slot;
    if v.Defer? {
      RelocateWaits(s, p, es, scope, s', mem0, p, Deferred(es[k], v.addend));
    }
  }

  lemma NoDefer(t: Tables, scope: Scope, mem: Memory, e: Entry)
    ensures !Judge(t, scope, false, mem, e).Defer?
  {
  }

  lemma RedoChain(s: State, scope: Scope, s': State)
    requires ChainOk(s) && Step(s, Redo(scope), s')
    ensures ChainOk(s')
  {
    KeptOk(s, scope, |s.c|);
  }

  lemma RedoWaits(s: State, scope: Scope, s': State, d: Dso, e: Entry)
    requires ChainOk(s) && Step(s, Redo(scope), s')
    ensures ChainOk(s') && (forall x :: x in s'.c ==> x in s.c)
    ensures Waits(s', d, e) <==> Waits(s, d, e) && Resolve(d.tables, scope, e.info).Unresolved?
  {
    KeptOk(s, scope, |s.c|);
    assert s.c[..|s.c|] == s.c;
    hide Resolve, Kept, KeptEntries, Distinct, Deferrable, DistinctSlots;
  }

  lemma RedoMemory(s: State, scope: Scope, s': State, mem0: Memory)
    requires ChainOk(s) && Origin(s, mem0) && AllDistinct(s.loads) && Step(s, Redo(scope), s')
    ensures RoundFacts(s, scope, |s.c|)
    ensures forall a :: (forall i :: 0 <= i < |s.c| ==> !HasSlot(s.c[i].tables, s.es[i], a)) ==> Read(s'.mem, a) == Read(s.mem, a)
  {
    ChainApart(s, mem0);
    RoundSlots(s, scope, |s.c|);
    hide RetriedMemory, Slot, HasSlot, SlotsApart;
  }

  /** An entry that does not wait has a slot that no waiting entry has. */
  lemma NotWaiting(s: State, mem0: Memory, i: nat, k: nat)
    requires ChainOk(s) && Origin(s, mem0) && AllDistinct(s.loads)
    requires i < |s.loads| && k < |s.loads[i].es| && Relocates(s.loads[i].p.tables, s.loads[i].es[k])
    requires var l := s.loads[i]; var v := Judge(l.p.tables, l.scope, l.waits, mem0, l.es[k]);
      v.Defer? ==> !Waits(s, l.p, Deferred(l.es[k], v.addend))
    ensures var l := s.loads[i]; forall j :: 0 <= j < |s.c| ==> !HasSlot(s.c[j].tables, s.es[j], Slot(l.p.tables, l.es[k]))
  {
    var l, e := s.loads[i], s.loads[i].es[k];
    hide Judge, Slot, Distinct, Deferrable, DistinctSlots, AllDistinct, Origin;
    forall j | 0 <= j < |s.c| ensures !HasSlot(s.c[j].tables, s.es[j], Slot(l.p.tables, e)) {
      forall w | w in s.es[j] ensures Slot(s.c[j].tables, w) != Slot(l.p.tables, e) {
        assert Waits(s, s.c[j], w);
        NotOwner(s, mem0, s.c[j], w, i, k);
      }
    }
  }

  lemma NotOwner(s: State, mem0: Memory, d: Dso, w: Entry, i: nat, k: nat)
    requires ChainOk(s) && Origin(s, mem0) && AllDistinct(s.loads) && d in s.c && Waits(s, d, w)
    requires i < |s.loads| && k < |s.loads[i].es| && Relocates(s.loads[i].p.tables, s.loads[i].es[k])
    requires var l := s.loads[i]; var v := Judge(l.p.tables, l.scope, l.waits, mem0, l.es[k]);
      v.Defer? ==> !Waits(s, l.p, Deferred(l.es[k], v.addend))
    ensures Slot(d.tables, w) != Slot(s.loads[i].p.tables, s.loads[i].es[k])
  {
    var l, e := s.loads[i], s.loads[i].es[k];
    hide Judge, Slot, Distinct, Deferrable, DistinctSlots, AllDistinct, Origin, Waits;
    if Slot(d.tables, w) == Slot(l.p.tables, e) {
      WaitingOwner(s, mem0, d, w, i, k);
      DeferredSlot(d.tables, l.scope, mem0, e, w);
    }
  }

  lemma RedoOutcome(s: State, scope: Scope, s': State, mem0: Memory, final: Scope, i: nat, k: nat)
    requires Inv(s, mem0, final) && Step(s, Redo(scope), s') && AllDistinct(s.loads) && Grows(scope, final)
    requires i < |s.loads| && k < |s.loads[i].es| && Relocates(s.loads[i].p.tables, s.loads[i].es[k])
    ensures ChainOk(s') && Outcome(s', s.loads[i], s.loads[i].es[k], mem0, final)
  {
    var l, e := s.loads[i], s.loads[i].es[k];
    var t, v := l.p.tables, Judge(l.p.tables, l.scope, l.waits, mem0, e);
    var d := Deferred(e, if v.Defer? then v.addend else 0);
    RedoMemory(s, scope, s', mem0);
    RedoWaits(s, scope, s', l.p, d);
    assert Outcome(s, l, e, mem0, final);
    hide RetriedMemory, Step, Distinct, Deferrable, DistinctSlots, AllDistinct, Origin, Outcomes, Elsewhere;
    if v.Defer? && Waits(s, l.p, d) {
      DeferredAgrees(t, l.scope, scope, final, mem0, e);
      WaitingSlot(s, scope, l.p, d);
      hide Judge, Resolve, Grows, HasSlot, Waits;
    } else {
      NotWaiting(s, mem0, i, k);
      hide Judge, Resolve, Grows, Waits;
    }
  }

  lemma WaitingSlot(s: State, scope: Scope, d: Dso, e: Entry)
    requires ChainOk(s) && RoundFacts(s, scope, |s.c|) && Waits(s, d, e)
    ensures e.addend.Some?
    ensures Read(RetriedMemory(s.c, scope, s.mem, s.es, |s.c|), Slot(d.tables, e)) == Retried(d.tables, scope, s.mem, e)
  {
    hide RetriedMemory, Retried, Slot, HasSlot, Distinct, DistinctSlots;
    var i :| 0 <= i < |s.c| && s.c[i] == d && e in s.es[i];
  }

  lemma RedoElsewhere(s: State, scope: Scope, s': State, mem0: Memory, final: Scope)
    requires Inv(s, mem0, final) && Step(s, Redo(scope), s') && AllDistinct(s.loads)
    ensures Elsewhere(s', mem0)
  {
    RedoMemory(s, scope, s', mem0);
    hide RetriedMemory, Distinct, DistinctSlots, Deferrable, AllDistinct, Kept, KeptEntries, Judge, Slot;
    forall a | forall i :: 0 <= i < |s'.loads| ==> !Touched(s'.loads[i], a) ensures Read(s'.mem, a) == Read(mem0, a) {
      forall i | 0 <= i < |s.c| ensures !HasSlot(s.c[i].tables, s.es[i], a) {
        forall e | e in s.es[i] ensures Slot(s.c[i].tables, e) != a {
          assert Waits(s, s.c[i], e);
          var j :| 0 <= j < |s.loads| && FromLoad(s.loads[j], mem0, s.c[i], e);
          var k :| 0 <= k < |s.loads[j].es| && DefersTo(s.c[i].tables, s.loads[j].scope, mem0, s.loads[j].es[k], e);
          DeferredSlot(s.c[i].tables, s.loads[j].scope, mem0, s.loads[j].es[k], e);
        }
      }
    }
  }

  lemma RedoKeeps(s: State, scope: Scope, s': State, mem0: Memory, final: Scope)
    requires Inv(s, mem0, final) && Step(s, Redo(scope), s') && AllDistinct(s.loads) && Grows(scope, final)
    ensures Inv(s', mem0, final)
  {
    RedoElsewhere(s, scope, s', mem0, final);
    RedoChain(s, scope, s');
    hide RetriedMemory, Kept, KeptEntries, Distinct, DistinctSlots, Deferrable, AllDistinct;
    hide Judge, Waits, Outcome, FromLoad, Elsewhere;
    forall d, e | d in s'.c && Waits(s', d, e) ensures exists i :: 0 <= i < |s'.loads| && FromLoad(s'.loads[i], mem0, d, e) {
      RedoWaits(s, scope, s', d, e);
    }
    forall i, k | 0 <= i < |s'.loads| && 0 <= k < |s'.loads[i].es| && Relocates(s'.loads[i].p.tables, s'.loads[i].es[k])
      ensures Outcome(s', s'.loads[i], s'.loads[i].es[k], mem0, final)
    {
      RedoOutcome(s, scope, s', mem0, final, i, k);
    }
  }

  // ---------------------------------------------------------------------------------------------
  // Whole runs against relocating everything at once
  // ---------------------------------------------------------------------------------------------

  /**
   Steps from a state in which nothing was relocated. The final scope extends those of the retries, which are global;
   what a library was relocated under may hold more, for a call without RTLD_GLOBAL takes its symbols away again.
   */
  ghost predicate IsRun(ss: seq<State>, events: seq<Event>, mem0: Memory, final: Scope) {
    && |ss| == |events| + 1 && ss[0] == State([], [], mem0, [])
    && (forall i :: 0 <= i < |events| ==> |ss[i].c| == |ss[i].es| && Step(ss[i], events[i], ss[i + 1]))
    && (forall i :: 0 <= i < |events| && events[i].Redo? ==> Grows(events[i].scope, final))
  }

  lemma {:induction false} LoadsGrow(ss: seq<State>, events: seq<Event>, mem0: Memory, final: Scope, n: nat, m: nat)
    requires IsRun(ss, events, mem0, final) && n <= m <= |events|
    ensures ss[n].loads <= ss[m].loads
    decreases m - n
  {
    if n < m {
      assert Step(ss[n], events[n], ss[n + 1]);
      hide Pass, Kept, KeptEntries, RetriedMemory, Grows;
      LoadsGrow(ss, events, mem0, final, n + 1, m);
    }
  }

  lemma FewerDistinct(loads: seq<Load>, more: seq<Load>)
    requires loads <= more && AllDistinct(more)
    ensures AllDistinct(loads)
  {
    hide Touched, DistinctSlots;
    assert forall i :: 0 <= i < |loads| ==> loads[i] == more[i];
  }

  lemma {:induction false} RunKeeps(ss: seq<State>, events: seq<Event>, mem0: Memory, final: Scope, n: nat)
    requires IsRun(ss, events, mem0, final) && AllDistinct(ss[|events|].loads) && n <= |events|
    ensures Inv(ss[n], mem0, final)
  {
    if n == 0 {
      assert Orderly([], []);
    } else {
      RunKeeps(ss, events, mem0, final, n - 1);
      LoadsGrow(ss, events, mem0, final, n - 1, |events|);
      LoadsGrow(ss, events, mem0, final, n, |events|);
      FewerDistinct(ss[n - 1].loads, ss[|events|].loads);
      FewerDistinct(ss[n].loads, ss[|events|].loads);
      assert Step(ss[n - 1], events[n - 1], ss[n]);
      hide Inv, AllDistinct, Pass, Kept, KeptEntries, RetriedMemory, Grows;
      match events[n - 1]
      case Prepare(p) => PrepareKeeps(ss[n - 1], p, ss[n], mem0, final);
      case Relocate(p, es, scope) => RelocateKeeps(ss[n - 1], p, es, scope, ss[n], mem0, final);
      case Redo(scope) => RedoKeeps(ss[n - 1], scope, ss[n], mem0, final);
    }
  }

  /** Relocating the libraries one after the other under one scope, without deferring. */
  function AtOnce(loads: seq<Load>, scope: Scope, mem: Memory): Result {
    if loads == [] then Result(mem, [], true)
    else
      var l, r := loads[|loads| - 1], AtOnce(loads[..|loads| - 1], scope, mem);
      if !r.ok then r else Pass(l.p.tables, scope, false, r.mem, l.es)
  }

  /** Every slot gets what its entry alone would write. */
  ghost predicate AtOnceFacts(loads: seq<Load>, scope: Scope, mem: Memory) {
    var r := AtOnce(loads, scope, mem);
    && r.ok
    && (forall i, k :: 0 <= i < |loads| && 0 <= k < |loads[i].es| && Relocates(loads[i].p.tables, loads[i].es[k]) ==>
          Read(r.mem, Slot(loads[i].p.tables, loads[i].es[k])) == SlotValue(loads[i].p.tables, scope, false, mem, loads[i].es[k]))
    && (forall a :: (forall i :: 0 <= i < |loads| ==> !Touched(loads[i], a)) ==> Read(r.mem, a) == Read(mem, a))
  }

  ghost predicate NoneFails(loads: seq<Load>, scope: Scope, mem: Memory) {
    forall i, k :: 0 <= i < |loads| && 0 <= k < |loads[i].es| ==>
      !Judge(loads[i].p.tables, scope, false, mem, loads[i].es[k]).Fail?
  }

  lemma {:induction false} AtOncePointwise(loads: seq<Load>, scope: Scope, mem: Memory)
    requires AllDistinct(loads) && NoneFails(loads, scope, mem)
    ensures AtOnceFacts(loads, scope, mem)
  {
    if loads != [] {
      var front := loads[..|loads| - 1];
      FewerDistinct(front, loads);
      assert NoneFails(front, scope, mem) by {
        assert forall i :: 0 <= i < |front| ==> front[i] == loads[i];
      }
      hide AtOnceFacts, AllDistinct, NoneFails;
      AtOncePointwise(front, scope, mem);
      AtOnceStep(loads, scope, mem);
    }
  }

  lemma AtOnceStep(loads: seq<Load>, scope: Scope, mem: Memory)
    requires loads != [] && AllDistinct(loads) && NoneFails(loads, scope, mem)
    requires AtOnceFacts(loads[..|loads| - 1], scope, mem)
    ensures AtOnceFacts(loads, scope, mem)
  {
    var front, l := loads[..|loads| - 1], loads[|loads| - 1];
    var was, t := AtOnce(front, scope, mem).mem, l.p.tables;
    forall k | 0 <= k < |l.es|
      ensures Judge(t, scope, false, was, l.es[k]) == Judge(t, scope, false, mem, l.es[k])
      ensures Relocates(t, l.es[k]) ==> Read(was, Slot(t, l.es[k])) == Read(mem, Slot(t, l.es[k]))
    {
      LastSlot(loads, scope, mem, k);
    }
    hide Judge, Slot;
    PassSucceeds(t, scope, false, was, l.es);
    PassPointwise(t, scope, false, was, l.es);
    var r := AtOnce(loads, scope, mem);
    assert r == Pass(t, scope, false, was, l.es);
    hide Pass, AtOnce, DistinctSlots, Touches;
    forall i, k | 0 <= i < |loads| && 0 <= k < |loads[i].es| && Relocates(loads[i].p.tables, loads[i].es[k])
      ensures Read(r.mem, Slot(loads[i].p.tables, loads[i].es[k]))
           == SlotValue(loads[i].p.tables, scope, false, mem, loads[i].es[k])
    {
      if i < |front| {
        assert front[i] == loads[i];
        TouchesOwn(loads[i], k);
        assert !Touched(l, Slot(loads[i].p.tables, loads[i].es[k]));
      }
    }
    forall a | forall i :: 0 <= i < |loads| ==> !Touched(loads[i], a) ensures Read(r.mem, a) == Read(mem, a) {
      assert forall i :: 0 <= i < |front| ==> front[i] == loads[i];
      assert !Touched(l, a);
    }
  }

  lemma TouchesOwn(l: Load, k: nat)
    requires k < |l.es| && Relocates(l.p.tables, l.es[k])
    ensures Touched(l, Slot(l.p.tables, l.es[k]))
  {
  }

  lemma LastSlot(loads: seq<Load>, scope: Scope, mem: Memory, k: nat)
    requires loads != [] && AllDistinct(loads) && AtOnceFacts(loads[..|loads| - 1], scope, mem) && k < |loads[|loads| - 1].es|
    ensures var l, was := loads[|loads| - 1], AtOnce(loads[..|loads| - 1], scope, mem).mem;
      && Judge(l.p.tables, scope, false, was, l.es[k]) == Judge(l.p.tables, scope, false, mem, l.es[k])
      && (Relocates(l.p.tables, l.es[k]) ==> Read(was, Slot(l.p.tables, l.es[k])) == Read(mem, Slot(l.p.tables, l.es[k])))
  {
    var front, l := loads[..|loads| - 1], loads[|loads| - 1];
    var was := AtOnce(front, scope, mem).mem;
    hide AtOnce, DistinctSlots;
    if Relocates(l.p.tables, l.es[k]) {
      TouchesOwn(l, k);
      hide Touches, Touched;
      assert forall i :: 0 <= i < |front| ==> front[i] == loads[i];
      JudgeLocal(l.p.tables, scope, false, was, mem, l.es[k]);
    } else {
      NoRelocSkips(l.p.tables, scope, false, was, l.es[k]);
      NoRelocSkips(l.p.tables, scope, false, mem, l.es[k]);
    }
  }

  /** If relocating at once succeeds, no entry fails in the memory of before. */
  lemma {:induction false} AtOnceFailsNot(loads: seq<Load>, scope: Scope, mem: Memory)
    requires AllDistinct(loads) && AtOnce(loads, scope, mem).ok
    ensures NoneFails(loads, scope, mem)
  {
    if loads != [] {
      var front, l := loads[..|loads| - 1], loads[|loads| - 1];
      FewerDistinct(front, loads);
      AtOnceFailsNot(front, scope, mem);
      AtOncePointwise(front, scope, mem);
      var was := AtOnce(front, scope, mem).mem;
      assert DistinctSlots(l.p.tables, l.es);
      PassPointwise(l.p.tables, scope, false, was, l.es);
      hide AtOnce, AllDistinct, Judge, AtOnceFacts, Pass, DistinctSlots;
      forall i, k | 0 <= i < |loads| && 0 <= k < |loads[i].es|
        ensures !Judge(loads[i].p.tables, scope, false, mem, loads[i].es[k]).Fail?
      {
        if i < |front| {
          assert front[i] == loads[i];
        } else {
          LastSlot(loads, scope, mem, k);
          NoRelocSkips(l.p.tables, scope, false, mem, l.es[k]);
        }
      }
    }
  }

  /** No entry has moved between the scope under which its library was relocated and the final one. */
  ghost predicate AllStay(loads: seq<Load>, final: Scope) {
    forall i, k :: 0 <= i < |loads| && 0 <= k < |loads[i].es| ==> !Moved(loads[i].p.tables, loads[i].scope, final, loads[i].es[k])
  }

  /** If the final scope extends all scopes, only late weak references move. */
  lemma OnlyLateMove(loads: seq<Load>, final: Scope)
    requires forall i :: 0 <= i < |loads| ==> Grows(loads[i].scope, final)
    ensures AllStay(loads, final) <==>
      forall i, k :: 0 <= i < |loads| && 0 <= k < |loads[i].es| ==>
        !LateWeak(loads[i].p.tables, loads[i].scope, final, loads[i].es[k])
  {
    forall i, k | 0 <= i < |loads| && 0 <= k < |loads[i].es|
      ensures Moved(loads[i].p.tables, loads[i].scope, final, loads[i].es[k])
        <==> LateWeak(loads[i].p.tables, loads[i].scope, final, loads[i].es[k])
    {
      MovedIsLate(loads[i].p.tables, loads[i].scope, final, loads[i].es[k]);
    }
    hide Moved, LateWeak;
  }

  /** Once nothing waits, a slot is what the final scope gives it exactly if its entry has not moved. */
  lemma FinalSlot(s: State, mem0: Memory, final: Scope, i: nat, k: nat)
    requires Inv(s, mem0, final) && (forall d, e :: !Waits(s, d, e))
    requires i < |s.loads| && k < |s.loads[i].es|
    ensures SlotStays(s, mem0, final, i, k)
  {
    var l, e := s.loads[i], s.loads[i].es[k];
    var t, v := l.p.tables, Judge(l.p.tables, l.scope, l.waits, mem0, e);
    NoRelocSkips(t, final, false, mem0, e);
    if Relocates(t, e) {
      assert Outcome(s, l, e, mem0, final);
      NotSkipped(t, l.scope, l.waits, mem0, e);
      hide Orderly, Origin, Elsewhere, Outcomes, Waits;
      if v.Defer? {
        DeferredStays(t, l.scope, final, mem0, e);
      } else {
        HandledAgrees(t, l.scope, final, l.waits, mem0, e);
      }
      hide Judge, Moved;
    }
  }

  ghost predicate SlotStays(s: State, mem0: Memory, final: Scope, i: nat, k: nat)
    requires i < |s.loads| && k < |s.loads[i].es|
  {
    var l, e := s.loads[i], s.loads[i].es[k];
    var v, moved := Judge(l.p.tables, final, false, mem0, e), Moved(l.p.tables, l.scope, final, e);
    if Relocates(l.p.tables, e) then v == Write(Read(s.mem, Slot(l.p.tables, e))) <==> !moved else v == Skip && !moved
  }

  lemma NotSkipped(t: Tables, scope: Scope, canDefer: bool, mem: Memory, e: Entry)
    requires Relocates(t, e)
    ensures !Judge(t, scope, canDefer, mem, e).Skip?
  {
  }

  /**
   Deferral against relocation at once, over a whole run: when nothing waits any more, relocating every library at once
   under the final scope would succeed and make the same memory if and only if no entry has moved.
   */
  lemma RunIsTransparent(ss: seq<State>, events: seq<Event>, mem0: Memory, final: Scope)
    requires IsRun(ss, events, mem0, final) && AllDistinct(ss[|events|].loads)
    requires var s := ss[|events|]; |s.c| == |s.es| && forall d, e :: !Waits(s, d, e)
    ensures var s := ss[|events|]; var whole := AtOnce(s.loads, final, mem0);
      (whole.ok && forall a :: Read(s.mem, a) == Read(whole.mem, a)) <==> AllStay(s.loads, final)
  {
    var s := ss[|events|];
    RunKeeps(ss, events, mem0, final, |events|);
    hide IsRun, AllDistinct;
    EndsTransparent(s, mem0, final);
  }

  lemma EndsTransparent(s: State, mem0: Memory, final: Scope)
    requires Inv(s, mem0, final) && AllDistinct(s.loads) && (forall d, e :: !Waits(s, d, e))
    ensures var whole := AtOnce(s.loads, final, mem0);
      (whole.ok && forall a :: Read(s.mem, a) == Read(whole.mem, a)) <==> AllStay(s.loads, final)
  {
    var whole := AtOnce(s.loads, final, mem0);
    assert Elsewhere(s, mem0);
    forall i, k | 0 <= i < |s.loads| && 0 <= k < |s.loads[i].es| ensures SlotStays(s, mem0, final, i, k) {
      FinalSlot(s, mem0, final, i, k);
    }
    hide Inv, Waits, AllDistinct, Judge, Moved, Slot, AtOnce, Touches;
    if AllStay(s.loads, final) {
      StayingSucceeds(s, mem0, final);
    } else if whole.ok {
      AtOnceFailsNot(s.loads, final, mem0);
      AtOncePointwise(s.loads, final, mem0);
      var i, k :| 0 <= i < |s.loads| && 0 <= k < |s.loads[i].es| &&
                  Moved(s.loads[i].p.tables, s.loads[i].scope, final, s.loads[i].es[k]);
      assert SlotStays(s, mem0, final, i, k);
      OnlyWrites(s.loads[i].p.tables, final, mem0, s.loads[i].es[k]);
    }
  }

  lemma StayingSucceeds(s: State, mem0: Memory, final: Scope)
    requires AllDistinct(s.loads) && Elsewhere(s, mem0) && AllStay(s.loads, final)
    requires forall i, k :: 0 <= i < |s.loads| && 0 <= k < |s.loads[i].es| ==> SlotStays(s, mem0, final, i, k)
    ensures AtOnce(s.loads, final, mem0).ok
    ensures forall a :: Read(s.mem, a) == Read(AtOnce(s.loads, final, mem0).mem, a)
  {
    hide Judge, Moved, Slot, AtOnce;
    forall i, k | 0 <= i < |s.loads| && 0 <= k < |s.loads[i].es|
      ensures !Judge(s.loads[i].p.tables, final, false, mem0, s.loads[i].es[k]).Fail?
    {
      assert SlotStays(s, mem0, final, i, k);
    }
    AtOncePointwise(s.loads, final, mem0);
    hide AllDistinct;
    forall a ensures Read(s.mem, a) == Read(AtOnce(s.loads, final, mem0).mem, a) {
      if i :| 0 <= i < |s.loads| && Touched(s.loads[i], a) {
        var l := s.loads[i];
        var k :| 0 <= k < |l.es| && Relocates(l.p.tables, l.es[k]) && Slot(l.p.tables, l.es[k]) == a;
        assert SlotStays(s, mem0, final, i, k);
      }
    }
  }
}
