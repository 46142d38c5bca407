/** The chain of libraries with deferred relocations: filling it, sizing its buffers, retrying it. */
module LazyChain {
  import opened Basics
  import opened Words
  import opened LazyReloc

  ghost function Follower(c: seq<Dso>, i: nat): Dso? {
    if i + 1 < |c| then c[i + 1] else null
  }

  /** Following lazy_next from head visits exactly the libraries of c, each once. */
  ghost predicate IsChain(head: Dso?, c: seq<Dso>)
    reads c
  {
    && head == (if c == [] then null else c[0])
    && Distinct(c)
    && (forall i :: 0 <= i < |c| ==> c[i].lazyNext == Follower(c, i))
  }

  /** The libraries of c wait with the entries of es, in buffers of their own. */
  ghost predicate AllPending(c: seq<Dso>, es: seq<seq<Entry>>)
    reads c, set i | 0 <= i < |c| :: c[i].lazy
  {
    && |c| == |es|
    && (forall i :: 0 <= i < |c| ==> c[i].Pending(es[i]))
    && (forall i, j :: 0 <= i < j < |c| ==> c[i].lazy != c[j].lazy)
  }

  lemma PushExtends(p: Dso, head: Dso?, c: seq<Dso>)
    requires IsChain(head, c) && p !in c && p.lazyNext == head
    ensures IsChain(p, [p] + c)
  {
  }

  lemma PushPending(p: Dso, e: seq<Entry>, c: seq<Dso>, es: seq<seq<Entry>>)
    requires AllPending(c, es) && p.Pending(e) && forall i :: 0 <= i < |c| ==> c[i].lazy != p.lazy
    ensures AllPending([p] + c, [e] + es)
  {
  }

  /** Links that lead from p back to p end nowhere. */
  lemma LoopIsNoChain(p: Dso, c: seq<Dso>, k: nat, c': seq<Dso>)
    requires k < |c| && c[k] == p && p.lazyNext == c[0]
    requires forall i :: 0 <= i < k ==> c[i].lazyNext == c[i + 1]
    ensures !IsChain(p, c')
  {
    if IsChain(p, c') {
      for i := 0 to k + 1
        invariant i < |c'| && c'[i] == if i == 0 then p else c[i - 1]
      {
        assert c'[i].lazyNext == c[i];
      }
    }
  }

  lemma NoRows()
    ensures Entries(Rows([]), 3) == []
  {
  }

  lemma {:induction false} EntriesOfRows(es: seq<Entry>)
    requires forall e :: e in es ==> e.addend.Some?
    ensures Entries(Rows(es), 3) == es
  {
    hide Rows, Entries;
    if es == [] {
      NoRows();
    } else {
      var front, e, words := es[..|es| - 1], es[|es| - 1], Rows(es);
      assert e in es && es == front + [e];
      EntriesOfRows(front);
      RowsGrow(front, e);
      EntriesGrow(words, 3 * |front|, 3);
      assert words[..3 * |front|] == Rows(front) && words[..3 * |front| + 3] == words;
    }
  }

  /** Of the first k libraries, those that still wait after a retry, the last one retried first. */
  ghost function Kept(c: seq<Dso>, scope: Scope, es: seq<seq<Entry>>, k: nat): seq<Dso>
    requires k <= |c| == |es|
  {
    if k == 0 then []
    else (if Unresolveds(c[k - 1].tables, scope, es[k - 1]) != [] then [c[k - 1]] else []) + Kept(c, scope, es, k - 1)
  }

  /** What they wait with. */
  ghost function KeptEntries(c: seq<Dso>, scope: Scope, es: seq<seq<Entry>>, k: nat): seq<seq<Entry>>
    requires k <= |c| == |es|
  {
    if k == 0 then []
    else
      var u := Unresolveds(c[k - 1].tables, scope, es[k - 1]);
      (if u != [] then [u] else []) + KeptEntries(c, scope, es, k - 1)
  }

  /** Memory after the first k libraries were retried one after the other. */
  ghost function RetriedMemory(c: seq<Dso>, scope: Scope, mem: Memory, es: seq<seq<Entry>>, k: nat): Memory
    requires k <= |c| == |es|
  {
    if k == 0 then mem
    else Pass(c[k - 1].tables, scope, true, RetriedMemory(c, scope, mem, es, k - 1), es[k - 1]).mem
  }

  /** Rows that prepare_lazy reserves, from the table sizes in bytes. */
  function Capacity(relsz: nat, relasz: nat, pltrelsz: nat): nat {
    relsz / 2 + relasz / 3 + pltrelsz / 2 + 1
  }

  /** One relocation table: its words and its size in bytes; rows of a RELA table have their own addends. */
  datatype Table = Table(words: array<Word>, size: nat, rela: bool)
  {
    function Stride(): nat { if rela then 3 else 2 }

    ghost predicate Valid() { size % (8 * Stride()) == 0 && size / 8 <= words.Length }

    ghost function Contents(): (es: seq<Entry>)
      requires Valid()
      reads words
      ensures |es| == size / 8 / Stride()
    {
      RowsAreWhole(size, rela);
      Entries(words[..size / 8], Stride())
    }
  }

  /** A table with addends has rows of three words, one without rows of two. */
  lemma RowOfTable(table: Table, k: nat)
    requires table.Valid() && k * (if table.rela then 24 else 16) < table.size
    ensures k < |table.Contents()| && (if table.rela then 3 * k + 3 else 2 * k + 2) <= table.words.Length
    ensures var e := table.Contents()[k];
      if table.rela then e == Entry(table.words[3 * k], table.words[3 * k + 1], Some(table.words[3 * k + 2]))
      else e == Entry(table.words[2 * k], table.words[2 * k + 1], None)
  {
    RowsAreWhole(table.size, table.rela);
    if table.rela {
      EntryOfRow(table.words[..table.size / 8], 3, k);
    } else {
      EntryOfRow(table.words[..table.size / 8], 2, k);
    }
  }

  lemma RowsAreWhole(size: nat, rela: bool)
    requires size % (8 * if rela then 3 else 2) == 0
    ensures (size / 8) % (if rela then 3 else 2) == 0
    ensures size / 8 / (if rela then 3 else 2) == size / (8 * if rela then 3 else 2)
  {
    if rela { } else { }
  }

  lemma {:induction false} PassDefersFew(t: Tables, scope: Scope, canDefer: bool, mem: Memory, es: seq<Entry>)
    ensures |Pass(t, scope, canDefer, mem, es).deferred| <= |es|
  {
    if es != [] {
      PassDefersFew(t, scope, canDefer, mem, es[..|es| - 1]);
    }
  }

  /** The rows reserved are enough for every row of the three tables, whichever kind the PLT table is. */
  lemma CapacitySuffices(relsz: nat, relasz: nat, pltrelsz: nat, pltrela: bool)
    ensures relsz / 8 / 2 + relasz / 8 / 3 + pltrelsz / 8 / (if pltrela then 3 else 2) < Capacity(relsz, relasz, pltrelsz)
  {
  }

  class Linker {
    var lazyHead: Dso?

    /** prepare_lazy: the chain stays a chain exactly when p was not in it. */
    method PrepareLazy(p: Dso, relsz: nat, relasz: nat, pltrelsz: nat, bindNow: bool, ghost c: seq<Dso>)
      requires IsChain(lazyHead, c)
      modifies this, p`lazy, p`lazyNext
      ensures bindNow ==> lazyHead == old(lazyHead) && p.lazy == old(p.lazy) && p.lazyNext == old(p.lazyNext)
      ensures !bindNow ==> p.lazy != null && fresh(p.lazy) && p.lazy.Length == 3 * Capacity(relsz, relasz, pltrelsz)
      ensures !bindNow && p !in c ==> IsChain(lazyHead, [p] + c)
      ensures !bindNow && p in c ==> forall c': seq<Dso> :: !IsChain(lazyHead, c')
    {
      if bindNow {
        return;
      }
      p.lazy := new Word[3 * Capacity(relsz, relasz, pltrelsz)](_ => 0);
      p.lazyNext := lazyHead;
      lazyHead := p;
      if p in c {
        ghost var k :| 0 <= k < |c| && c[k] == p;
        forall c': seq<Dso> ensures !IsChain(p, c') {
          LoopIsNoChain(p, c, k, c');
        }
      } else {
        assert IsChain(old(lazyHead), c);
        PushExtends(p, old(lazyHead), c);
      }
    }

    /** reloc_all for one library: the PLT table, the REL table and the RELA table, in that order. */
    method RelocateLibrary(p: Dso, store: Store, scope: Scope, plt: Table, rel: Table, rela: Table) returns (ok: bool)
      requires plt.Valid() && rel.Valid() && rela.Valid() && !rel.rela && rela.rela
      requires p.lazy != null ==>
        p.Pending([]) && p.lazy.Length == 3 * Capacity(rel.size, rela.size, plt.size)
        && p.lazy != plt.words && p.lazy != rel.words && p.lazy != rela.words
      modifies store, p`lazyCnt, if p.lazy != null then {p.lazy} else {}
      ensures var r := Pass(p.tables, scope, p.lazy != null, old(store.mem), AllContents(plt, rel, rela));
        && ok == r.ok && store.mem == r.mem && (ok && p.lazy != null ==> p.Pending(r.deferred))
    {
      hide Pass, Entries, Rows, Table.Contents;
      ThreePasses(p.tables, scope, p.lazy != null, store.mem, plt.Contents(), rel.Contents(), rela.Contents());
      CapacitySuffices(rel.size, rela.size, plt.size, plt.rela);
      ghost var d1, d2, d3;
      ok, d1 := RelocateTable(p, store, scope, plt, []);
      if !ok { return; }
      assert [] + d1 == d1;
      ok, d2 := RelocateTable(p, store, scope, rel, d1);
      if !ok { return; }
      ok, d3 := RelocateTable(p, store, scope, rela, d1 + d2);
    }

    /** The entries of the three tables in the order in which they are relocated. */
    ghost function AllContents(plt: Table, rel: Table, rela: Table): seq<Entry>
      requires plt.Valid() && rel.Valid() && rela.Valid()
      reads plt.words, rel.words, rela.words
    {
      plt.Contents() + rel.Contents() + rela.Contents()
    }

    lemma ThreePasses(t: Tables, scope: Scope, canDefer: bool, mem: Memory, a: seq<Entry>, b: seq<Entry>, c: seq<Entry>)
      ensures var r1, r := Pass(t, scope, canDefer, mem, a), Pass(t, scope, canDefer, mem, a + b + c);
        if !r1.ok then r == r1 else
        var r2 := Pass(t, scope, canDefer, r1.mem, b);
        if !r2.ok then !r.ok && r.mem == r2.mem else
        var r3 := Pass(t, scope, canDefer, r2.mem, c);
        r == r3.(deferred := r1.deferred + r2.deferred + r3.deferred)
    {
      if Pass(t, scope, canDefer, mem, a).ok {
        PassConcat(t, scope, canDefer, mem, a, b);
        if Pass(t, scope, canDefer, mem, a + b).ok {
          PassConcat(t, scope, canDefer, mem, a + b, c);
        } else {
          PassFails(t, scope, canDefer, mem, a + b, a + b + c);
        }
      } else {
        assert a <= a + b + c;
        PassFails(t, scope, canDefer, mem, a, a + b + c);
      }
    }

    method RelocateTable(p: Dso, store: Store, scope: Scope, table: Table, ghost before: seq<Entry>)
      returns (ok: bool, ghost deferred: seq<Entry>)
      requires table.Valid()
      requires p.lazy != null ==>
        p.Pending(before) && 3 * (|before| + table.size / 8 / table.Stride()) <= p.lazy.Length && p.lazy != table.words
      modifies store, p`lazyCnt, if p.lazy != null then {p.lazy} else {}
      ensures var r := Pass(p.tables, scope, p.lazy != null, old(store.mem), table.Contents());
        && ok == r.ok && store.mem == r.mem && deferred == r.deferred
        && |deferred| <= table.size / 8 / table.Stride()
        && (p.lazy != null ==> p.Pending(before + deferred))
    {
      hide Pass, Entries, Rows;
      RowsAreWhole(table.size, table.rela);
      ghost var es := table.Contents();
      deferred := Pass(p.tables, scope, p.lazy != null, store.mem, es).deferred;
      PassDefersFew(p.tables, scope, p.lazy != null, store.mem, es);
      ok := DoRelocs(p, store, scope, table.words, table.size / 8, table.Stride(), before);
    }

    /** Retries one library; its rows are read and rewritten in the same buffer. */
    method Retry(p: Dso, store: Store, scope: Scope, ghost es: seq<Entry>)
      requires p.Pending(es)
      modifies store, p`lazyCnt, p.lazy
      ensures store.mem == Pass(p.tables, scope, true, old(store.mem), es).mem
      ensures p.Pending(Unresolveds(p.tables, scope, es))
    {
      var n := 3 * p.lazyCnt;
      p.lazyCnt := 0;
      EntriesOfRows(es);
      RetryKeeps(p.tables, scope, store.mem, es);
      assert p.lazy[..0] == [];
      assert p.Pending([]);
      assert [] + Unresolveds(p.tables, scope, es) == Unresolveds(p.tables, scope, es);
      hide Pass, Unresolveds, Rows, Entries;
      var ok := DoRelocs(p, store, scope, p.lazy, n, 3, []);
    }

    /** Retries one library and puts it back on the chain if something still waits. */
    method Requeue(p: Dso, store: Store, scope: Scope, ghost es: seq<Entry>, ghost kept: seq<Dso>, ghost keptEs: seq<seq<Entry>>)
      requires p.Pending(es) && p !in kept && forall d :: d in kept ==> d.lazy != p.lazy
      requires IsChain(lazyHead, kept) && AllPending(kept, keptEs)
      modifies this, store, p, p.lazy
      ensures store.mem == Pass(p.tables, scope, true, old(store.mem), es).mem
      ensures var u := Unresolveds(p.tables, scope, es);
        if u != [] then
          IsChain(lazyHead, [p] + kept) && AllPending([p] + kept, [u] + keptEs) && p.lazy == old(p.lazy)
        else
          IsChain(lazyHead, kept) && AllPending(kept, keptEs) && p.lazy == null && p.lazyNext == null
    {
      hide Pass, Unresolveds, Rows, IsChain, AllPending;
      Retry(p, store, scope, es);
      assert forall i :: 0 <= i < |kept| ==> kept[i] in kept;
      if p.lazyCnt != 0 {
        p.lazyNext := lazyHead;
        PushExtends(p, lazyHead, kept);
        lazyHead := p;
        PushPending(p, Unresolveds(p.tables, scope, es), kept, keptEs);
      } else {
        p.lazy := null;
        p.lazyNext := null;
      }
    }

    /** The libraries of c from k on still have their links, their buffers and what waits in them. */
    ghost predicate Untouched(c: seq<Dso>, es: seq<seq<Entry>>, buffers: seq<array?<Word>>, k: nat)
      requires k <= |c| == |es| == |buffers|
      reads c[k..], buffers[k..]
    {
      forall i :: k <= i < |c| ==> c[i].lazyNext == Follower(c, i) && c[i].lazy == buffers[i] && c[i].Pending(es[i])
    }

    /** Every library of c before k is on the kept chain, with its buffer, or has nothing left to do. */
    ghost predicate Finished(c: seq<Dso>, buffers: seq<array?<Word>>, k: nat, kept: seq<Dso>)
      requires k <= |c| == |buffers|
      reads c[..k]
    {
      && (forall d :: d in kept ==> d in c[..k])
      && (forall i :: 0 <= i < k ==>
            if c[i] in kept then c[i].lazy == buffers[i] else c[i].lazy == null && c[i].lazyNext == null)
    }

    ghost predicate Apart(c: seq<Dso>, buffers: seq<array?<Word>>) {
      && |c| == |buffers| && (forall i :: 0 <= i < |c| ==> buffers[i] != null)
      && Distinct(c) && Distinct(buffers)
    }

    method Advance(store: Store, scope: Scope, ghost c: seq<Dso>, ghost es: seq<seq<Entry>>, ghost buffers: seq<array?<Word>>,
                   p: Dso, ghost k: nat, ghost kept: seq<Dso>, ghost keptEs: seq<seq<Entry>>)
      returns (ghost kept': seq<Dso>, ghost keptEs': seq<seq<Entry>>)
      requires Apart(c, buffers) && |es| == |c| && k < |c| && p == c[k]
      requires Untouched(c, es, buffers, k) && Finished(c, buffers, k, kept)
      requires IsChain(lazyHead, kept) && AllPending(kept, keptEs)
      modifies this, store, p, p.lazy
      ensures Untouched(c, es, buffers, k + 1) && Finished(c, buffers, k + 1, kept')
      ensures IsChain(lazyHead, kept') && AllPending(kept', keptEs')
      ensures store.mem == Pass(p.tables, scope, true, old(store.mem), es[k]).mem
      ensures var u := Unresolveds(p.tables, scope, es[k]);
        && kept' == (if u != [] then [p] else []) + kept
        && keptEs' == (if u != [] then [u] else []) + keptEs
    {
      hide Pass, Unresolveds, IsChain, AllPending, Untouched, Dso.Pending, Finished, Apart;
      First(c, es, buffers, k);
      KeptApart(c, buffers, k, kept);
      kept', keptEs' := kept, keptEs;
      Requeue(p, store, scope, es[k], kept, keptEs);
      if Unresolveds(p.tables, scope, es[k]) != [] {
        kept', keptEs' := [p] + kept, [Unresolveds(p.tables, scope, es[k])] + keptEs;
      }
      FinishedGrows(c, buffers, k, kept, kept');
    }

    lemma First(c: seq<Dso>, es: seq<seq<Entry>>, buffers: seq<array?<Word>>, k: nat)
      requires Apart(c, buffers) && k < |c| == |es| && Untouched(c, es, buffers, k)
      ensures |buffers| == |c| && c[k].lazy == buffers[k] != null && c[k].Pending(es[k]) && c[k].lazyNext == Follower(c, k)
      ensures Untouched(c, es, buffers, k + 1)
      ensures c[k] !in c[k + 1..] && c[k].lazy !in buffers[k + 1..] && c[k] !in c[..k]
    {
    }

    lemma KeptApart(c: seq<Dso>, buffers: seq<array?<Word>>, k: nat, kept: seq<Dso>)
      requires Apart(c, buffers) && k < |c| && c[k].lazy == buffers[k] && Finished(c, buffers, k, kept)
      ensures forall d :: d in kept ==> d != c[k] && d.lazy != c[k].lazy
    {
      forall d | d in kept ensures d != c[k] && d.lazy != c[k].lazy {
        var i :| 0 <= i < k && c[..k][i] == d;
        assert c[i] == d;
      }
    }

    lemma FinishedGrows(c: seq<Dso>, buffers: seq<array?<Word>>, k: nat, kept: seq<Dso>, kept': seq<Dso>)
      requires k < |c| == |buffers| && Finished(c, buffers, k, kept) && c[k] !in c[..k] && c[k] !in kept
      requires if kept' == [c[k]] + kept then c[k].lazy == buffers[k]
               else kept' == kept && c[k].lazy == null && c[k].lazyNext == null
      ensures Finished(c, buffers, k + 1, kept')
    {
      assert c[..k + 1] == c[..k] + [c[k]];
      forall i | 0 <= i < k ensures c[i] in kept' <==> c[i] in kept { assert c[i] in c[..k]; }
    }

    method RedoLazyRelocs(store: Store, scope: Scope, ghost c: seq<Dso>, ghost es: seq<seq<Entry>>)
      requires IsChain(lazyHead, c) && AllPending(c, es)
      modifies this, store, c, set i | 0 <= i < |c| && c[i].lazy != null :: c[i].lazy
      ensures store.mem == RetriedMemory(c, scope, old(store.mem), es, |c|)
      ensures IsChain(lazyHead, Kept(c, scope, es, |c|))
      ensures AllPending(Kept(c, scope, es, |c|), KeptEntries(c, scope, es, |c|))
      ensures forall i :: 0 <= i < |c| ==>
        if c[i] in Kept(c, scope, es, |c|) then c[i].lazy == old(c[i].lazy) else c[i].lazy == null && c[i].lazyNext == null
    {
      ghost var buffers := seq(|c|, i requires 0 <= i < |c| reads c => c[i].lazy);
      RetryBegins(c, es, buffers);
      hide Pass, Unresolveds, Kept, KeptEntries, RetriedMemory, IsChain, AllPending, Untouched, Finished, Apart, Dso.Pending;
      var p := lazyHead;
      lazyHead := null;
      RetryAll(store, scope, p, c, es, buffers);
      RetryEnds(c, buffers, Kept(c, scope, es, |c|));
    }

    method RetryAll(store: Store, scope: Scope, head: Dso?, ghost c: seq<Dso>, ghost es: seq<seq<Entry>>,
                    ghost buffers: seq<array?<Word>>)
      requires lazyHead == null && head == (if c == [] then null else c[0])
      requires Apart(c, buffers) && |es| == |c| && Untouched(c, es, buffers, 0)
      modifies this, store, c, buffers
      ensures store.mem == RetriedMemory(c, scope, old(store.mem), es, |c|)
      ensures IsChain(lazyHead, Kept(c, scope, es, |c|))
      ensures AllPending(Kept(c, scope, es, |c|), KeptEntries(c, scope, es, |c|))
      ensures Finished(c, buffers, |c|, Kept(c, scope, es, |c|))
    {
      assert IsChain(null, []) && AllPending([], []) && Finished(c, buffers, 0, []);
      hide Pass, Unresolveds, IsChain, AllPending, Untouched, Finished, Apart, Dso.Pending;
      var p := head;
      ghost var k, kept: seq<Dso>, keptEs: seq<seq<Entry>> := 0, [], [];
      while p != null
        invariant k <= |c| == |es| && p == (if k < |c| then c[k] else null)
        invariant kept == Kept(c, scope, es, k) && keptEs == KeptEntries(c, scope, es, k)
        invariant IsChain(lazyHead, kept) && AllPending(kept, keptEs)
        invariant Untouched(c, es, buffers, k) && Finished(c, buffers, k, kept)
        invariant store.mem == RetriedMemory(c, scope, old(store.mem), es, k)
        decreases |c| - k
      {
        First(c, es, buffers, k);
        var next := p.lazyNext;
        kept, keptEs := Advance(store, scope, c, es, buffers, p, k, kept, keptEs);
        p := next;
        k := k + 1;
      }
    }

    lemma RetryBegins(c: seq<Dso>, es: seq<seq<Entry>>, buffers: seq<array?<Word>>)
      requires IsChain(lazyHead, c) && AllPending(c, es)
      requires |buffers| == |c| && forall i :: 0 <= i < |c| ==> buffers[i] == c[i].lazy
      ensures lazyHead == if c == [] then null else c[0]
      ensures Apart(c, buffers) && Untouched(c, es, buffers, 0)
    {
    }

    lemma RetryEnds(c: seq<Dso>, buffers: seq<array?<Word>>, kept: seq<Dso>)
      requires |buffers| == |c| && Finished(c, buffers, |c|, kept)
      ensures forall i :: 0 <= i < |c| ==>
        if c[i] in kept then c[i].lazy == buffers[i] else c[i].lazy == null && c[i].lazyNext == null
    {
    }
  }
}
