/**
 Relocation with deferral. What cannot be resolved yet is kept in a buffer of the library and tried
 again whenever the global scope has grown; the retry reads and rewrites that one buffer.
 */
module LazyReloc {
  import opened Basics
  import opened Words

  datatype Kind = NoReloc | Symbolic | Got | Plt | Relative | Offset | SymOrRel | Unsupported

  /** What the tables of one library say about a relocation's info word. */
  datatype Tables = Tables(
    base: Word,
    kind: Word -> Kind,                   // R_TYPE
    sym: Word -> nat,                     // R_SYM
    localValue: nat -> Option<Word>,      // the value of a symbol of local binding
    weakUndefined: nat -> bool)           // an undefined reference of weak binding

  /** The global scope at one moment: the value find_sym gives for a symbol, by name and need_def. */
  type Scope = (nat, bool) -> Option<Word>

  type Memory = map<Word, Word>

  function Read(mem: Memory, a: Word): Word { if a in mem then mem[a] else 0 }

  /** One table entry; an entry of a REL table has no addend of its own. */
  datatype Entry = Entry(offset: Word, info: Word, addend: Option<Word>)

  datatype Resolution = Unresolved | Resolved(value: Word)

  function Resolve(t: Tables, scope: Scope, info: Word): Resolution {
    var sym := t.sym(info);
    if sym == 0 then Resolved(0)
    else if t.localValue(sym).Some? then Resolved(t.localValue(sym).value)
    else match scope(sym, t.kind(info) == Plt)
      case Some(v) => Resolved(v)
      case None => if t.weakUndefined(sym) then Resolved(0) else Unresolved
  }

  function Slot(t: Tables, e: Entry): Word { Add(t.base, e.offset) }

  function AddendOf(t: Tables, mem: Memory, e: Entry): Word {
    if e.addend.Some? then e.addend.value
    else if t.kind(e.info) in {Got, Plt} then 0
    else Read(mem, Slot(t, e))
  }

  datatype Verdict = Skip | Write(value: Word) | Defer(addend: Word) | Fail

  /** What happens to one entry. */
  function Judge(t: Tables, scope: Scope, canDefer: bool, mem: Memory, e: Entry): Verdict {
    var kind := t.kind(e.info);
    if kind == NoReloc then Skip
    else
      var addend := AddendOf(t, mem, e);
      match Resolve(t, scope, e.info)
      case Unresolved => if canDefer && kind in {Got, Plt} then Defer(addend) else Fail
      case Resolved(v) =>
        match kind
        case Symbolic | Got | Plt => Write(Add(v, addend))
        case Relative => Write(Add(t.base, addend))
        case Offset => Write(Add(v, Sub(addend, Slot(t, e))))
        case SymOrRel => Write(if t.sym(e.info) != 0 then Add(v, addend) else Add(t.base, addend))
        case _ => Fail
  }

  /** A pass over a table: memory, what was deferred, and whether the pass reached the end. */
  datatype Result = Result(mem: Memory, deferred: seq<Entry>, ok: bool)

  function Pass(t: Tables, scope: Scope, canDefer: bool, mem: Memory, es: seq<Entry>): Result {
    if es == [] then Result(mem, [], true)
    else
      var r := Pass(t, scope, canDefer, mem, es[..|es| - 1]);
      if !r.ok then r else After(t, scope, canDefer, r, es[|es| - 1])
  }

  function After(t: Tables, scope: Scope, canDefer: bool, r: Result, e: Entry): Result {
    match Judge(t, scope, canDefer, r.mem, e)
    case Skip => r
    case Write(v) => r.(mem := r.mem[Slot(t, e) := v])
    case Defer(addend) => r.(deferred := r.deferred + [Entry(e.offset, e.info, Some(addend))])
    case Fail => r.(ok := false)
  }

  /** The entry at a position of a table whose rows are 2 (REL) or 3 (RELA) words long. */
  function EntryAt(words: seq<Word>, pos: nat, stride: nat): Entry
    requires 2 <= stride <= 3 && pos + stride <= |words|
  {
    Entry(words[pos], words[pos + 1], if stride > 2 then Some(words[pos + 2]) else None)
  }

  function Entries(words: seq<Word>, stride: nat): (es: seq<Entry>)
    requires 2 <= stride <= 3 && |words| % stride == 0
    ensures |es| * stride == |words|
  {
    if words == [] then []
    else Entries(words[..|words| - stride], stride) + [EntryAt(words, |words| - stride, stride)]
  }

  /** The rows of the deferral buffer. */
  function Rows(es: seq<Entry>): (words: seq<Word>)
    ensures |words| == 3 * |es|
  {
    if es == [] then []
    else
      var e := es[|es| - 1];
      Rows(es[..|es| - 1]) + [e.offset, e.info, if e.addend.Some? then e.addend.value else 0]
  }

  class Dso {
    const tables: Tables
    var lazy: array?<Word>
    var lazyCnt: nat
    var lazyNext: Dso?

    constructor (t: Tables)
      ensures tables == t && lazy == null && lazyCnt == 0 && lazyNext == null
    {
      tables, lazy, lazyCnt, lazyNext := t, null, 0, null;
    }

    /** The deferral buffer holds these entries. */
    ghost predicate Pending(es: seq<Entry>)
      reads this, lazy
    {
      && lazy != null && lazyCnt == |es| && 3 * lazyCnt <= lazy.Length && lazy[..3 * lazyCnt] == Rows(es)
      && forall e :: e in es ==> e.addend.Some? && tables.kind(e.info) in {Got, Plt}
    }
  }

  class Store {
    var mem: Memory

    constructor (m: Memory)
      ensures mem == m
    {
      mem := m;
    }
  }

  lemma EntriesGrow(words: seq<Word>, pos: nat, stride: nat)
    requires 2 <= stride <= 3 && pos + stride <= |words| && pos % stride == 0
    ensures (pos + stride) % stride == 0
    ensures Entries(words[..pos + stride], stride) == Entries(words[..pos], stride) + [EntryAt(words, pos, stride)]
  {
    if stride == 2 { } else { }
    var w := words[..pos + stride];
    assert w[..|w| - stride] == words[..pos];
  }

  /** Each row of a table is one entry: an offset and an info word, and in a table with addends an addend. */
  lemma {:induction false} EntryOfRow(words: seq<Word>, stride: nat, k: nat)
    requires 2 <= stride <= 3 && |words| % stride == 0 && stride * k < |words|
    ensures k < |Entries(words, stride)| && stride * k + stride <= |words|
    ensures Entries(words, stride)[k].offset == words[stride * k] && Entries(words, stride)[k].info == words[stride * k + 1]
    ensures Entries(words, stride)[k].addend == if stride == 3 then Some(words[stride * k + 2]) else None
    decreases |words|
  {
    var front := words[..|words| - stride];
    WholeRows(|words|, stride, k);
    if stride * k < |front| {
      EntryOfRow(front, stride, k);
    } else {
      EntriesSplit(words, stride);
      RowsCounted(front, stride, k);
    }
  }

  lemma WholeRows(n: nat, stride: nat, k: nat)
    requires 2 <= stride <= 3 && n % stride == 0 && stride * k < n
    ensures stride * k + stride <= n && (n - stride) % stride == 0
  {
    if stride == 2 { } else { }
  }

  lemma EntriesSplit(words: seq<Word>, stride: nat)
    requires 2 <= stride <= 3 && |words| % stride == 0 && stride <= |words|
    ensures (|words| - stride) % stride == 0
    ensures var from := |words| - stride;
      Entries(words, stride) == Entries(words[..from], stride)
        + [Entry(words[from], words[from + 1], if stride == 3 then Some(words[from + 2]) else None)]
  {
    if stride == 2 { } else { }
  }

  lemma {:induction false} RowsCounted(words: seq<Word>, stride: nat, k: nat)
    requires 2 <= stride <= 3 && |words| % stride == 0 && |words| == stride * k
    ensures |Entries(words, stride)| == k
    decreases |words|
  {
    if words != [] {
      WholeRows(|words|, stride, k - 1);
      EntriesSplit(words, stride);
      RowsCounted(words[..|words| - stride], stride, k - 1);
    }
  }

  lemma PassGrows(t: Tables, scope: Scope, canDefer: bool, mem: Memory, es: seq<Entry>, e: Entry)
    requires Pass(t, scope, canDefer, mem, es).ok
    ensures Pass(t, scope, canDefer, mem, es + [e]) == After(t, scope, canDefer, Pass(t, scope, canDefer, mem, es), e)
  {
    assert (es + [e])[..|es + [e]| - 1] == es;
  }

  /** One failure is final: the pass reports the state it had then. */
  lemma {:induction false} PassFails(t: Tables, scope: Scope, canDefer: bool, mem: Memory, done: seq<Entry>, es: seq<Entry>)
    requires done <= es && !Pass(t, scope, canDefer, mem, done).ok
    ensures Pass(t, scope, canDefer, mem, es) == Pass(t, scope, canDefer, mem, done)
  {
    if |done| < |es| {
      assert done <= es[..|es| - 1];
      PassFails(t, scope, canDefer, mem, done, es[..|es| - 1]);
    } else {
      assert done == es;
    }
  }

  lemma {:induction false} EntriesPrefix(words: seq<Word>, pos: nat, stride: nat)
    requires 2 <= stride <= 3 && pos <= |words| && pos % stride == 0 && |words| % stride == 0
    ensures Entries(words[..pos], stride) <= Entries(words, stride)
    decreases |words|
  {
    if pos == |words| {
      assert words[..pos] == words;
    } else {
      var front := words[..|words| - stride];
      assert pos <= |front| && |front| % stride == 0 by { if stride == 2 { } else { } }
      EntriesPrefix(front, pos, stride);
      assert front[..pos] == words[..pos];
    }
  }

  lemma RowsGrow(es: seq<Entry>, e: Entry)
    requires e.addend.Some?
    ensures Rows(es + [e]) == Rows(es) + [e.offset, e.info, e.addend.value]
  {
    assert (es + [e])[..|es + [e]| - 1] == es;
  }

  /** Keeps an entry for later: its row goes behind the rows already in the buffer. */
  method Keep(dso: Dso, offset: Word, info: Word, addend: Word, ghost pending: seq<Entry>)
    requires dso.Pending(pending) && dso.tables.kind(info) in {Got, Plt} && 3 * dso.lazyCnt + 3 <= dso.lazy.Length
    modifies dso`lazyCnt, dso.lazy
    ensures dso.Pending(pending + [Entry(offset, info, Some(addend))])
    ensures forall k :: 3 * dso.lazyCnt <= k < dso.lazy.Length ==> dso.lazy[k] == old(dso.lazy[k])
  {
    RowsGrow(pending, Entry(offset, info, Some(addend)));
    ghost var rows := dso.lazy[..3 * dso.lazyCnt];
    dso.lazy[3 * dso.lazyCnt] := offset;
    dso.lazy[3 * dso.lazyCnt + 1] := info;
    dso.lazy[3 * dso.lazyCnt + 2] := addend;
    dso.lazyCnt := dso.lazyCnt + 1;
    assert dso.lazy[..3 * dso.lazyCnt] == rows + [offset, info, addend];
  }

  /** Handles one entry; reads its inline addend from memory when the table has none. */
  method RelocOne(dso: Dso, store: Store, scope: Scope, e: Entry, ghost pending: seq<Entry>, ghost r: Result) returns (ok: bool)
    requires dso.lazy != null ==> dso.Pending(pending + r.deferred) && 3 * dso.lazyCnt + 3 <= dso.lazy.Length
    requires r.mem == store.mem && r.ok
    modifies store, dso`lazyCnt, if dso.lazy != null then {dso.lazy} else {}
    ensures var r' := After(dso.tables, scope, dso.lazy != null, r, e);
      && ok == r'.ok && store.mem == r'.mem
      && if dso.lazy != null then dso.Pending(pending + r'.deferred) else dso.lazyCnt == old(dso.lazyCnt)
    ensures dso.lazy != null ==>
      && old(dso.lazyCnt) <= dso.lazyCnt <= old(dso.lazyCnt) + 1
      && forall k :: 3 * dso.lazyCnt <= k < dso.lazy.Length ==> dso.lazy[k] == old(dso.lazy[k])
  {
    hide Rows, Pass, Entries, Add, Sub;
    var t := dso.tables;
    var kind := t.kind(e.info);
    if kind == NoReloc {
      return true;
    }
    var slot := Add(t.base, e.offset);
    var addend := if e.addend.Some? then e.addend.value else if kind in {Got, Plt} then 0 else Read(store.mem, slot);
    var res := Resolve(t, scope, e.info);
    if res.Unresolved? {
      if dso.lazy == null || kind !in {Got, Plt} {
        return false;
      }
      Keep(dso, e.offset, e.info, addend, pending + r.deferred);
      assert pending + (r.deferred + [Entry(e.offset, e.info, Some(addend))])
        == pending + r.deferred + [Entry(e.offset, e.info, Some(addend))];
      return true;
    }
    match kind {
      case Symbolic | Got | Plt => store.mem := store.mem[slot := Add(res.value, addend)];
      case Relative => store.mem := store.mem[slot := Add(t.base, addend)];
      case Offset => store.mem := store.mem[slot := Add(res.value, Sub(addend, slot))];
      case SymOrRel => store.mem := store.mem[slot := if t.sym(e.info) != 0 then Add(res.value, addend) else Add(t.base, addend)];
      case _ => return false;
    }
    return true;
  }

  /** do_relocs at run time: false when it gave up with an error. */
  method DoRelocs(dso: Dso, store: Store, scope: Scope, rel: array<Word>, n: nat, stride: nat, ghost pending: seq<Entry>)
    returns (ok: bool)
    requires 2 <= stride <= 3 && n <= rel.Length && n % stride == 0
    requires dso.lazy != null ==> dso.Pending(pending)
    requires rel == dso.lazy ==> stride == 3 && pending == []
    requires dso.lazy != null && rel != dso.lazy ==> 3 * (dso.lazyCnt + n / stride) <= dso.lazy.Length
    modifies store, dso`lazyCnt, if dso.lazy != null then {dso.lazy} else {}
    ensures var r := Pass(dso.tables, scope, dso.lazy != null, old(store.mem), Entries(old(rel[..n]), stride));
      && ok == r.ok && store.mem == r.mem
      && if dso.lazy != null then dso.Pending(pending + r.deferred) else dso.lazyCnt == old(dso.lazyCnt)
  {
    hide Pass, After, Entries, Rows, Judge, Resolve, AddendOf;
    var t := dso.tables;
    var canDefer := dso.lazy != null;
    ghost var words, mem := rel[..n], store.mem;
    ghost var r := Result(mem, [], true);
    PassBegins(t, scope, canDefer, mem, words, stride);
    assert pending + [] == pending;
    var pos := 0;
    while pos < n
      invariant pos <= n && pos % stride == 0 && forall k :: pos <= k < n ==> rel[k] == words[k]
      invariant r == Pass(t, scope, canDefer, mem, Entries(words[..pos], stride)) && r.ok
      invariant store.mem == r.mem && canDefer == (dso.lazy != null) && dso.lazy == old(dso.lazy)
      invariant if canDefer then dso.Pending(pending + r.deferred) else dso.lazyCnt == old(dso.lazyCnt)
      invariant canDefer ==> dso.lazyCnt <= old(dso.lazyCnt) + pos / stride
      decreases n - pos
    {
      RowFits(pos, n, stride);
      EntriesGrow(words, pos, stride);
      PassGrows(t, scope, canDefer, mem, Entries(words[..pos], stride), EntryAt(words, pos, stride));
      EntriesPrefix(words, pos + stride, stride);
      var e := Entry(rel[pos], rel[pos + 1], if stride > 2 then Some(rel[pos + 2]) else None);
      ok := RelocOne(dso, store, scope, e, pending, r);
      r := After(t, scope, canDefer, r, EntryAt(words, pos, stride));
      pos := pos + stride;
      if !ok {
        PassFails(t, scope, canDefer, mem, Entries(words[..pos], stride), Entries(words, stride));
        return;
      }
    }
    assert words[..pos] == words;
    return true;
  }

  lemma PassBegins(t: Tables, scope: Scope, canDefer: bool, mem: Memory, words: seq<Word>, stride: nat)
    requires 2 <= stride <= 3
    ensures Pass(t, scope, canDefer, mem, Entries(words[..0], stride)) == Result(mem, [], true)
  {
    assert Entries(words[..0], stride) == [];
  }

  lemma RowFits(pos: nat, n: nat, stride: nat)
    requires 2 <= stride <= 3 && pos < n && pos % stride == 0 && n % stride == 0
    ensures pos + stride <= n && (pos + stride) / stride == pos / stride + 1 && pos / stride < n / stride
  {
    if stride == 2 { } else { }
  }

  // ---------------------------------------------------------------------------------------------
  // What deferral means
  // ---------------------------------------------------------------------------------------------

  /** No two entries that relocate something name the same slot. */
  ghost predicate DistinctSlots(t: Tables, es: seq<Entry>) {
    forall i, j :: 0 <= i < j < |es| && Relocates(t, es[i]) && Relocates(t, es[j]) ==> Slot(t, es[i]) != Slot(t, es[j])
  }

  predicate Relocates(t: Tables, e: Entry) { t.kind(e.info) != NoReloc }

  /** The entries that scope leaves unresolved and that may wait, with the addends they had. */
  function Waiting(t: Tables, scope: Scope, mem: Memory, es: seq<Entry>): seq<Entry> {
    if es == [] then []
    else
      var e := es[|es| - 1];
      var v := Judge(t, scope, true, mem, e);
      Waiting(t, scope, mem, es[..|es| - 1]) + if v.Defer? then [Entry(e.offset, e.info, Some(v.addend))] else []
  }

  /** The value a slot has after a pass: what Judge says about it in the memory before the pass. */
  function SlotValue(t: Tables, scope: Scope, canDefer: bool, mem: Memory, e: Entry): Word {
    var v := Judge(t, scope, canDefer, mem, e);
    if v.Write? then v.value else Read(mem, Slot(t, e))
  }

  lemma JudgeLocal(t: Tables, scope: Scope, canDefer: bool, mem: Memory, mem': Memory, e: Entry)
    requires Read(mem, Slot(t, e)) == Read(mem', Slot(t, e))
    ensures Judge(t, scope, canDefer, mem, e) == Judge(t, scope, canDefer, mem', e)
  {
  }

  /** Each relocated slot has its SlotValue, and nothing else changed. */
  ghost predicate Pointwise(t: Tables, scope: Scope, canDefer: bool, mem: Memory, mem': Memory, es: seq<Entry>) {
    && (forall i :: 0 <= i < |es| && Relocates(t, es[i]) ==>
          Read(mem', Slot(t, es[i])) == SlotValue(t, scope, canDefer, mem, es[i]) && !Judge(t, scope, canDefer, mem, es[i]).Fail?)
    && (forall a :: Touches(t, es, a) || Read(mem', a) == Read(mem, a))
  }

  ghost predicate Touches(t: Tables, es: seq<Entry>, a: Word) {
    exists i :: 0 <= i < |es| && Relocates(t, es[i]) && Slot(t, es[i]) == a
  }

  lemma TouchesStep(t: Tables, es: seq<Entry>)
    requires es != []
    ensures var front, e := es[..|es| - 1], es[|es| - 1];
      forall a :: Touches(t, es, a) <==> Touches(t, front, a) || (Relocates(t, e) && Slot(t, e) == a)
  {
    var front, e := es[..|es| - 1], es[|es| - 1];
    hide Relocates, Slot;
    forall a | Touches(t, front, a) ensures Touches(t, es, a) {
      var i :| 0 <= i < |front| && Relocates(t, front[i]) && Slot(t, front[i]) == a;
      assert es[i] == front[i];
    }
    forall a | Touches(t, es, a) && !(Relocates(t, e) && Slot(t, e) == a) ensures Touches(t, front, a) {
      var i :| 0 <= i < |es| && Relocates(t, es[i]) && Slot(t, es[i]) == a;
      assert front[i] == es[i];
    }
  }

  lemma FreshSlot(t: Tables, scope: Scope, canDefer: bool, mem: Memory, mem': Memory, es: seq<Entry>)
    requires es != [] && DistinctSlots(t, es) && Relocates(t, es[|es| - 1])
    requires Pointwise(t, scope, canDefer, mem, mem', es[..|es| - 1])
    ensures Judge(t, scope, canDefer, mem', es[|es| - 1]) == Judge(t, scope, canDefer, mem, es[|es| - 1])
  {
    var front, e := es[..|es| - 1], es[|es| - 1];
    assert !Touches(t, front, Slot(t, e)) by {
      hide Judge, Relocates, Slot;
      assert forall i :: 0 <= i < |front| ==> front[i] == es[i];
    }
    JudgeLocal(t, scope, canDefer, mem, mem', e);
  }

  lemma NoRelocSkips(t: Tables, scope: Scope, canDefer: bool, mem: Memory, e: Entry)
    ensures !Relocates(t, e) ==> Judge(t, scope, canDefer, mem, e) == Skip
  {
  }

  lemma PointwiseStep(t: Tables, scope: Scope, canDefer: bool, mem: Memory, mem': Memory, es: seq<Entry>)
    requires es != [] && DistinctSlots(t, es)
    requires Pointwise(t, scope, canDefer, mem, mem', es[..|es| - 1])
    requires !Judge(t, scope, canDefer, mem', es[|es| - 1]).Fail?
    ensures var e := es[|es| - 1];
      var v := Judge(t, scope, canDefer, mem', e);
      Pointwise(t, scope, canDefer, mem, if v.Write? then mem'[Slot(t, e) := v.value] else mem', es)
  {
    hide Judge, Slot, Relocates;
    var front, e := es[..|es| - 1], es[|es| - 1];
    var v := Judge(t, scope, canDefer, mem', e);
    var mem2 := if v.Write? then mem'[Slot(t, e) := v.value] else mem';
    NoRelocSkips(t, scope, canDefer, mem', e);
    TouchesStep(t, es);
    if Relocates(t, e) {
      FreshSlot(t, scope, canDefer, mem, mem', es);
    }
    assert forall a :: Touches(t, es, a) || Read(mem2, a) == Read(mem, a);
    hide Touches;
    forall i | 0 <= i < |es| && Relocates(t, es[i])
      ensures Read(mem2, Slot(t, es[i])) == SlotValue(t, scope, canDefer, mem, es[i])
      ensures !Judge(t, scope, canDefer, mem, es[i]).Fail?
    {
      if i < |front| {
        assert front[i] == es[i];
      }
    }
  }

  /** A pass touches each slot once, as if it were the only one, and nothing else. */
  lemma {:induction false} PassPointwise(t: Tables, scope: Scope, canDefer: bool, mem: Memory, es: seq<Entry>)
    requires DistinctSlots(t, es) && Pass(t, scope, canDefer, mem, es).ok
    ensures var r := Pass(t, scope, canDefer, mem, es);
      && Pointwise(t, scope, canDefer, mem, r.mem, es)
      && (canDefer ==> r.deferred == Waiting(t, scope, mem, es))
  {
    if es != [] {
      var front, e := es[..|es| - 1], es[|es| - 1];
      PassPointwise(t, scope, canDefer, mem, front);
      var r := Pass(t, scope, canDefer, mem, front);
      PointwiseStep(t, scope, canDefer, mem, r.mem, es);
      if Relocates(t, e) {
        FreshSlot(t, scope, canDefer, mem, r.mem, es);
      }
      hide Pointwise, DistinctSlots;
    }
  }

  // ---------------------------------------------------------------------------------------------
  // What a pass leaves in the slots, as arithmetic
  // ---------------------------------------------------------------------------------------------

  /** The address that an entry relocates. */
  function AddressOf(t: Tables, e: Entry): nat { (t.base + e.offset) % WORD }

  /** The addend: the entry's own, nothing for the GOT and PLT entries of a REL table, else the old contents of the slot. */
  ghost predicate HasAddend(t: Tables, mem: Memory, e: Entry, addend: Word) {
    && (e.addend.Some? ==> addend == e.addend.value)
    && (e.addend.None? && (t.kind(e.info) == Got || t.kind(e.info) == Plt) ==> addend == 0)
    && (e.addend.None? && t.kind(e.info) != Got && t.kind(e.info) != Plt ==>
          addend == if AddressOf(t, e) in mem then mem[AddressOf(t, e)] else 0)
  }

  /**
   The symbol's value: 0 without a symbol; for a local one its own; else what the scope has, where only PLT entries
   ask for a definition; and 0 for a weak reference that the scope does not have.
   */
  ghost predicate HasValue(t: Tables, scope: Scope, e: Entry, value: Word) {
    var sym := t.sym(e.info);
    && (sym == 0 ==> value == 0)
    && (sym != 0 && t.localValue(sym).Some? ==> value == t.localValue(sym).value)
    && (sym != 0 && t.localValue(sym).None? ==>
          var found := if t.kind(e.info) == Plt then scope(sym, true) else scope(sym, false);
          if found.Some? then value == found.value else t.weakUndefined(sym) && value == 0)
  }

  /** A symbol that the scope does not have, neither local nor weak. */
  ghost predicate Missing(t: Tables, scope: Scope, e: Entry) {
    var sym := t.sym(e.info);
    && sym != 0 && t.localValue(sym).None? && !t.weakUndefined(sym)
    && (if t.kind(e.info) == Plt then scope(sym, true) else scope(sym, false)).None?
  }

  /** What is in the slot of an entry, given its addend and the value of its symbol. */
  ghost predicate SlotIs(t: Tables, e: Entry, now: Word, addend: Word, value: Word) {
    match t.kind(e.info)
    case Relative => now == (t.base + addend) % WORD
    case SymOrRel => now == ((if t.sym(e.info) == 0 then t.base else value) + addend) % WORD
    case Symbolic => now == (value + addend) % WORD
    case Got => now == (value + addend) % WORD
    case Plt => now == (value + addend) % WORD
    case Offset => (now + AddressOf(t, e)) % WORD == (value + addend) % WORD
    case NoReloc => false
    case Unsupported => false
  }

  ghost predicate Relocated(t: Tables, scope: Scope, mem: Memory, mem': Memory, e: Entry) {
    exists addend: Word, value: Word ::
      HasAddend(t, mem, e, addend) && HasValue(t, scope, e, value) && SlotIs(t, e, Read(mem', AddressOf(t, e)), addend, value)
  }

  /** An entry without a value may wait. */
  predicate MayWait(t: Tables, canDefer: bool, e: Entry) {
    canDefer && (t.kind(e.info) == Got || t.kind(e.info) == Plt)
  }

  lemma SubAddsUp(x: Word, y: Word, z: Word)
    ensures (Add(x, Sub(y, z)) + z) % WORD == (x + y) % WORD
  {
    var s := Sub(y, z);
    assert s == y - z || s == y - z + WORD;
    var a := Add(x, s);
    assert a == x + s || a == x + s - WORD;
    assert a + z == x + y || a + z == x + y + WORD || a + z == x + y - WORD;
  }

  /** What is written is the sum; an entry fails exactly if it is unsupported, or its symbol is missing and it may not wait. */
  lemma JudgeMeans(t: Tables, scope: Scope, canDefer: bool, mem: Memory, e: Entry)
    requires Relocates(t, e)
    ensures var v := Judge(t, scope, canDefer, mem, e);
      && (v.Fail? <==> t.kind(e.info) == Unsupported || (Missing(t, scope, e) && !MayWait(t, canDefer, e)))
      && (v.Defer? <==> Missing(t, scope, e) && MayWait(t, canDefer, e))
      && (v.Defer? ==> HasAddend(t, mem, e, v.addend))
      && (v.Write? ==> exists addend: Word, value: Word ::
            HasAddend(t, mem, e, addend) && HasValue(t, scope, e, value) && SlotIs(t, e, v.value, addend, value))
  {
    var v, addend := Judge(t, scope, canDefer, mem, e), AddendOf(t, mem, e);
    assert HasAddend(t, mem, e, addend);
    if v.Write? {
      var value := Resolve(t, scope, e.info).value;
      SubAddsUp(value, addend, Slot(t, e));
      assert HasValue(t, scope, e, value) && SlotIs(t, e, v.value, addend, value);
    }
  }

  /**
   After a pass that reached the end: a slot whose symbol was found holds the sum for its kind; one whose symbol is
   missing is as it was, its entry may wait, and does so with the addend it had.
   */
  lemma PassRelocates(t: Tables, scope: Scope, canDefer: bool, mem: Memory, es: seq<Entry>, i: nat)
    requires DistinctSlots(t, es) && Pass(t, scope, canDefer, mem, es).ok && i < |es| && Relocates(t, es[i])
    ensures var r := Pass(t, scope, canDefer, mem, es);
      && t.kind(es[i].info) != Unsupported
      && if Missing(t, scope, es[i]) then
           && MayWait(t, canDefer, es[i]) && Read(r.mem, AddressOf(t, es[i])) == Read(mem, AddressOf(t, es[i]))
           && exists addend: Word ::
                HasAddend(t, mem, es[i], addend) && Entry(es[i].offset, es[i].info, Some(addend)) in r.deferred
         else Relocated(t, scope, mem, r.mem, es[i])
  {
    PassPointwise(t, scope, canDefer, mem, es);
    JudgeMeans(t, scope, canDefer, mem, es[i]);
    WaitingMembers(t, scope, mem, es);
    var v, r := Judge(t, scope, canDefer, mem, es[i]), Pass(t, scope, canDefer, mem, es);
    OnlyFour(t, scope, canDefer, mem, es[i]);
    hide Judge, Pass, HasAddend, HasValue, SlotIs, Waiting, DistinctSlots;
    assert Slot(t, es[i]) == AddressOf(t, es[i]);
    assert SlotValue(t, scope, canDefer, mem, es[i]) == Read(r.mem, AddressOf(t, es[i]));
    if v.Defer? {
      assert Entry(es[i].offset, es[i].info, Some(v.addend)) in r.deferred;
    }
  }

  lemma OnlyFour(t: Tables, scope: Scope, canDefer: bool, mem: Memory, e: Entry)
    ensures Judge(t, scope, canDefer, mem, e).Skip? <==> !Relocates(t, e)
    ensures Judge(t, scope, canDefer, mem, e).Defer? ==> Judge(t, scope, true, mem, e) == Judge(t, scope, canDefer, mem, e)
  {
  }

  /** And it reaches the end if and only if no entry is unsupported, and none is missing its symbol that may not wait. */
  lemma PassReachesEnd(t: Tables, scope: Scope, canDefer: bool, mem: Memory, es: seq<Entry>)
    requires DistinctSlots(t, es)
    ensures Pass(t, scope, canDefer, mem, es).ok <==>
      forall i :: 0 <= i < |es| && Relocates(t, es[i]) ==>
        t.kind(es[i].info) != Unsupported && (Missing(t, scope, es[i]) ==> MayWait(t, canDefer, es[i]))
  {
    if Pass(t, scope, canDefer, mem, es).ok {
      forall i | 0 <= i < |es| && Relocates(t, es[i])
        ensures t.kind(es[i].info) != Unsupported && (Missing(t, scope, es[i]) ==> MayWait(t, canDefer, es[i]))
      {
        PassRelocates(t, scope, canDefer, mem, es, i);
      }
    } else if forall i :: 0 <= i < |es| && Relocates(t, es[i]) ==>
        t.kind(es[i].info) != Unsupported && (Missing(t, scope, es[i]) ==> MayWait(t, canDefer, es[i])) {
      forall i | 0 <= i < |es| ensures !Judge(t, scope, canDefer, mem, es[i]).Fail? {
        if Relocates(t, es[i]) { JudgeMeans(t, scope, canDefer, mem, es[i]); }
        OnlyFour(t, scope, canDefer, mem, es[i]);
      }
      PassSucceeds(t, scope, canDefer, mem, es);
    }
  }

  /**
   The same image at two bases, its slots holding the same before: relative slots differ afterwards by what the bases
   differ by.
   */
  lemma RelativeMoves(t: Tables, base: Word, scope: Scope, canDefer: bool, mem: Memory, mem1: Memory, es: seq<Entry>, i: nat)
    requires var t1 := t.(base := base);
      && DistinctSlots(t, es) && DistinctSlots(t1, es)
      && Pass(t, scope, canDefer, mem, es).ok && Pass(t1, scope, canDefer, mem1, es).ok
      && i < |es| && t.kind(es[i].info) == Relative
      && Read(mem1, AddressOf(t1, es[i])) == Read(mem, AddressOf(t, es[i]))
    ensures var t1 := t.(base := base);
      var now, now1 := Read(Pass(t, scope, canDefer, mem, es).mem, AddressOf(t, es[i])),
                       Read(Pass(t1, scope, canDefer, mem1, es).mem, AddressOf(t1, es[i]));
      (now1 - now) % WORD == (base - t.base) % WORD
  {
    hide Pass, DistinctSlots;
    var a := RelativeSlot(t, scope, canDefer, mem, es, i);
    var a1 := RelativeSlot(t.(base := base), scope, canDefer, mem1, es, i);
    assert a1 == a;
    Shifted(t.base, base, a);
  }

  lemma RelativeSlot(t: Tables, scope: Scope, canDefer: bool, mem: Memory, es: seq<Entry>, i: nat) returns (addend: Word)
    requires DistinctSlots(t, es) && Pass(t, scope, canDefer, mem, es).ok && i < |es| && t.kind(es[i].info) == Relative
    ensures HasAddend(t, mem, es[i], addend)
    ensures Read(Pass(t, scope, canDefer, mem, es).mem, AddressOf(t, es[i])) == (t.base + addend) % WORD
  {
    PassRelocates(t, scope, canDefer, mem, es, i);
    hide Pass, Missing, HasValue, HasAddend, AddressOf, DistinctSlots;
    var value: Word;
    addend, value :| HasAddend(t, mem, es[i], addend) && HasValue(t, scope, es[i], value) &&
      SlotIs(t, es[i], Read(Pass(t, scope, canDefer, mem, es).mem, AddressOf(t, es[i])), addend, value);
  }

  lemma Shifted(x: Word, y: Word, a: Word)
    ensures ((y + a) % WORD - (x + a) % WORD) % WORD == (y - x) % WORD
  {
  }

  /** A later scope still finds what an earlier one found. */
  ghost predicate Grows(scope: Scope, later: Scope) {
    forall n, d :: scope(n, d).Some? ==> later(n, d) == scope(n, d)
  }

  ghost predicate AllGrow(scopes: seq<Scope>, later: Scope) {
    forall k :: 0 <= k < |scopes| ==> Grows(scopes[k], later)
  }

  /** Entries of a deferral buffer. */
  ghost predicate Deferrable(t: Tables, es: seq<Entry>) {
    forall e :: e in es ==> e.addend.Some? && t.kind(e.info) in {Got, Plt}
  }

  lemma {:induction false} WaitingIsDeferrable(t: Tables, scope: Scope, mem: Memory, es: seq<Entry>)
    ensures Deferrable(t, Waiting(t, scope, mem, es))
  {
    if es != [] {
      WaitingIsDeferrable(t, scope, mem, es[..|es| - 1]);
    }
  }

  /** A retry never fails, and keeps its unresolved entries unchanged and in order. */
  lemma {:induction false} RetryKeeps(t: Tables, scope: Scope, mem: Memory, es: seq<Entry>)
    requires Deferrable(t, es)
    ensures var r := Pass(t, scope, true, mem, es); r.ok && r.deferred == Unresolveds(t, scope, es)
  {
    if es != [] {
      RetryKeeps(t, scope, mem, es[..|es| - 1]);
      assert es[|es| - 1] in es;
    }
  }

  function Unresolveds(t: Tables, scope: Scope, es: seq<Entry>): seq<Entry> {
    if es == [] then []
    else
      var e := es[|es| - 1];
      Unresolveds(t, scope, es[..|es| - 1]) + if Resolve(t, scope, e.info).Unresolved? then [e] else []
  }

  /** Retrying under a succession of scopes, each time with what the previous one left. */
  function Retries(t: Tables, scopes: seq<Scope>, mem: Memory, es: seq<Entry>): Result {
    if scopes == [] then Result(mem, es, true)
    else
      var r := Retries(t, scopes[..|scopes| - 1], mem, es);
      if !r.ok then r else Pass(t, scopes[|scopes| - 1], true, r.mem, r.deferred)
  }

  /** The first of the scopes that resolves info. */
  function FirstResolution(t: Tables, scopes: seq<Scope>, info: Word): Resolution {
    if scopes == [] then Unresolved
    else
      var r := FirstResolution(t, scopes[..|scopes| - 1], info);
      if r.Resolved? then r else Resolve(t, scopes[|scopes| - 1], info)
  }

  function StillUnresolved(t: Tables, scopes: seq<Scope>, es: seq<Entry>): seq<Entry> {
    if es == [] then []
    else
      var e := es[|es| - 1];
      StillUnresolved(t, scopes, es[..|es| - 1]) + if FirstResolution(t, scopes, e.info).Unresolved? then [e] else []
  }

  lemma {:induction false} StillUnresolvedMembers(t: Tables, scopes: seq<Scope>, es: seq<Entry>)
    requires DistinctSlots(t, es)
    ensures forall e :: e in StillUnresolved(t, scopes, es) <==> e in es && FirstResolution(t, scopes, e.info).Unresolved?
    ensures DistinctSlots(t, StillUnresolved(t, scopes, es))
  {
    if es != [] {
      StillUnresolvedMembers(t, scopes, es[..|es| - 1]);
      var e := es[|es| - 1];
      assert es == es[..|es| - 1] + [e];
      var front := StillUnresolved(t, scopes, es[..|es| - 1]);
      forall i | 0 <= i < |front| && Relocates(t, front[i]) && Relocates(t, e) ensures Slot(t, front[i]) != Slot(t, e) {
        assert front[i] in front;
        var k :| 0 <= k < |es| - 1 && es[k] == front[i];
      }
    }
  }

  lemma {:induction false} UnresolvedStep(t: Tables, scopes: seq<Scope>, scope: Scope, es: seq<Entry>)
    ensures Unresolveds(t, scope, StillUnresolved(t, scopes, es)) == StillUnresolved(t, scopes + [scope], es)
  {
    assert (scopes + [scope])[..|scopes + [scope]| - 1] == scopes;
    if es != [] {
      var e, front := es[|es| - 1], es[..|es| - 1];
      UnresolvedStep(t, scopes, scope, front);
      var s := StillUnresolved(t, scopes, front);
      assert (s + [e])[..|s + [e]| - 1] == s;
      assert s + [] == s;
    }
  }

  /** What the slot of a deferred entry holds after retrying under the scopes. */
  function Settlement(t: Tables, scopes: seq<Scope>, mem: Memory, e: Entry): Word
    requires e.addend.Some?
  {
    var v := FirstResolution(t, scopes, e.info);
    if v.Resolved? then Add(v.value, e.addend.value) else Read(mem, Slot(t, e))
  }

  ghost predicate Settled(t: Tables, scopes: seq<Scope>, mem: Memory, mem': Memory, es: seq<Entry>)
    requires Deferrable(t, es)
  {
    && (forall e :: e in es ==> Read(mem', Slot(t, e)) == Settlement(t, scopes, mem, e))
    && (forall a :: (forall e :: e in es ==> Slot(t, e) != a) ==> Read(mem', a) == Read(mem, a))
  }

  /** One retry of the entries that are still waiting, seen from the slot of one entry. */
  lemma RetrySlot(t: Tables, scope: Scope, mem: Memory, waiting: seq<Entry>, e: Entry)
    requires Deferrable(t, waiting) && DistinctSlots(t, waiting) && e in waiting
    ensures var v := Resolve(t, scope, e.info);
      Read(Pass(t, scope, true, mem, waiting).mem, Slot(t, e))
        == if v.Resolved? then Add(v.value, e.addend.value) else Read(mem, Slot(t, e))
  {
    RetryKeeps(t, scope, mem, waiting);
    PassPointwise(t, scope, true, mem, waiting);
    hide Pass, Unresolveds, Waiting;
    var i :| 0 <= i < |waiting| && waiting[i] == e;
    assert Relocates(t, waiting[i]);
  }

  lemma RetryElsewhere(t: Tables, scope: Scope, mem: Memory, waiting: seq<Entry>, a: Word)
    requires Deferrable(t, waiting) && DistinctSlots(t, waiting)
    requires forall e :: e in waiting ==> Slot(t, e) != a
    ensures Read(Pass(t, scope, true, mem, waiting).mem, a) == Read(mem, a)
  {
    RetryKeeps(t, scope, mem, waiting);
    PassPointwise(t, scope, true, mem, waiting);
  }

  lemma SettleStep(t: Tables, earlier: seq<Scope>, scope: Scope, mem: Memory, mem1: Memory, es: seq<Entry>)
    requires Deferrable(t, es) && DistinctSlots(t, es) && Settled(t, earlier, mem, mem1, es)
    ensures Settled(t, earlier + [scope], mem, Pass(t, scope, true, mem1, StillUnresolved(t, earlier, es)).mem, es)
  {
    var waiting := StillUnresolved(t, earlier, es);
    StillUnresolvedMembers(t, earlier, es);
    var mem2 := Pass(t, scope, true, mem1, waiting).mem;
    assert (earlier + [scope])[..|earlier + [scope]| - 1] == earlier;
    hide Pass, StillUnresolved;
    forall e | e in es ensures Read(mem2, Slot(t, e)) == Settlement(t, earlier + [scope], mem, e) {
      if e in waiting {
        RetrySlot(t, scope, mem1, waiting, e);
      } else {
        SlotsApart(t, es, waiting, e);
        RetryElsewhere(t, scope, mem1, waiting, Slot(t, e));
      }
    }
    forall a | forall e :: e in es ==> Slot(t, e) != a ensures Read(mem2, a) == Read(mem, a) {
      RetryElsewhere(t, scope, mem1, waiting, a);
    }
  }

  lemma SlotsApart(t: Tables, es: seq<Entry>, some: seq<Entry>, e: Entry)
    requires Deferrable(t, es) && DistinctSlots(t, es) && e in es && e !in some && forall w :: w in some ==> w in es
    ensures forall w :: w in some ==> Slot(t, w) != Slot(t, e)
  {
    forall w | w in some ensures Slot(t, w) != Slot(t, e) {
      var i :| 0 <= i < |es| && es[i] == e;
      var j :| 0 <= j < |es| && es[j] == w;
      assert Relocates(t, es[i]) && Relocates(t, es[j]);
    }
  }

  /**
   After any number of retries: what no scope resolved still waits, unchanged and in order, its slot
   untouched; every other slot holds the value of the first scope that resolved it plus the addend
   the entry had when it was deferred; no other memory changed.
   */
  lemma {:induction false} RetriesSettle(t: Tables, scopes: seq<Scope>, mem: Memory, es: seq<Entry>)
    requires Deferrable(t, es) && DistinctSlots(t, es)
    ensures var r := Retries(t, scopes, mem, es);
      r.ok && r.deferred == StillUnresolved(t, scopes, es) && Settled(t, scopes, mem, r.mem, es)
  {
    if scopes == [] {
      NothingResolved(t, es);
    } else {
      var earlier, scope := scopes[..|scopes| - 1], scopes[|scopes| - 1];
      assert scopes == earlier + [scope];
      RetriesSettle(t, earlier, mem, es);
      var r := Retries(t, earlier, mem, es);
      StillUnresolvedMembers(t, earlier, es);
      RetryKeeps(t, scope, r.mem, r.deferred);
      UnresolvedStep(t, earlier, scope, es);
      hide Settled, Pass, StillUnresolved, Unresolveds;
      SettleStep(t, earlier, scope, mem, r.mem, es);
    }
  }

  lemma {:induction false} NothingResolved(t: Tables, es: seq<Entry>)
    ensures StillUnresolved(t, [], es) == es
  {
    if es != [] {
      NothingResolved(t, es[..|es| - 1]);
      assert es == es[..|es| - 1] + [es[|es| - 1]];
    }
  }

  // ---------------------------------------------------------------------------------------------
  // Deferral against immediate relocation
  // ---------------------------------------------------------------------------------------------

  lemma {:induction false} WaitingMembers(t: Tables, scope: Scope, mem: Memory, es: seq<Entry>)
    requires DistinctSlots(t, es)
    ensures forall i :: 0 <= i < |es| && Judge(t, scope, true, mem, es[i]).Defer? ==>
      Entry(es[i].offset, es[i].info, Some(Judge(t, scope, true, mem, es[i]).addend)) in Waiting(t, scope, mem, es)
    ensures forall d :: d in Waiting(t, scope, mem, es) ==> exists i :: 0 <= i < |es| && DefersTo(t, scope, mem, es[i], d)
    ensures DistinctSlots(t, Waiting(t, scope, mem, es))
  {
    if es != [] {
      var front, e := es[..|es| - 1], es[|es| - 1];
      WaitingMembers(t, scope, mem, front);
      var w := Waiting(t, scope, mem, front);
      hide Judge;
      forall d | d in w ensures exists i :: 0 <= i < |es| && DefersTo(t, scope, mem, es[i], d) {
        var i :| 0 <= i < |front| && DefersTo(t, scope, mem, front[i], d);
        assert DefersTo(t, scope, mem, es[i], d);
      }
      if Judge(t, scope, true, mem, e).Defer? {
        var d := Entry(e.offset, e.info, Some(Judge(t, scope, true, mem, e).addend));
        assert DefersTo(t, scope, mem, es[|es| - 1], d);
        forall k | 0 <= k < |w| && Relocates(t, w[k]) && Relocates(t, d) ensures Slot(t, w[k]) != Slot(t, d) {
          assert w[k] in w;
          var i :| 0 <= i < |front| && DefersTo(t, scope, mem, front[i], w[k]);
          assert es[i] == front[i] && Relocates(t, es[i]) && Relocates(t, es[|es| - 1]);
        }
      }
    }
  }

  ghost predicate DefersTo(t: Tables, scope: Scope, mem: Memory, e: Entry, d: Entry) {
    var v := Judge(t, scope, true, mem, e);
    v.Defer? && d == Entry(e.offset, e.info, Some(v.addend))
  }

  lemma {:induction false} PassSucceeds(t: Tables, scope: Scope, canDefer: bool, mem: Memory, es: seq<Entry>)
    requires DistinctSlots(t, es) && forall i :: 0 <= i < |es| ==> !Judge(t, scope, canDefer, mem, es[i]).Fail?
    ensures Pass(t, scope, canDefer, mem, es).ok
  {
    if es != [] {
      var front, e := es[..|es| - 1], es[|es| - 1];
      assert forall i :: 0 <= i < |front| ==> front[i] == es[i];
      PassSucceeds(t, scope, canDefer, mem, front);
      PassPointwise(t, scope, canDefer, mem, front);
      if Relocates(t, e) {
        assert forall i :: 0 <= i < |front| && Relocates(t, front[i]) ==> Slot(t, es[i]) != Slot(t, e);
        JudgeLocal(t, scope, canDefer, mem, Pass(t, scope, canDefer, mem, front).mem, e);
      }
    }
  }

  lemma {:induction false} GrowthKeepsFirst(t: Tables, first: Scope, scopes: seq<Scope>, final: Scope, info: Word)
    requires Resolve(t, first, info).Unresolved? && AllGrow(scopes, final)
    ensures FirstResolution(t, scopes, info).Resolved? ==> Resolve(t, final, info) == FirstResolution(t, scopes, info)
  {
    if scopes != [] {
      assert Grows(scopes[|scopes| - 1], final);
      assert AllGrow(scopes[..|scopes| - 1], final);
      GrowthKeepsFirst(t, first, scopes[..|scopes| - 1], final, info);
    }
  }

  predicate UsesSymbol(t: Tables, e: Entry) {
    t.kind(e.info) in {Symbolic, Got, Plt, Offset, SymOrRel}
  }

  /** The entry was resolved under the first scope, and the final scope does not resolve it or gives it another value. */
  predicate Moved(t: Tables, first: Scope, final: Scope, e: Entry) {
    var v, w := Resolve(t, first, e.info), Resolve(t, final, e.info);
    Relocates(t, e) && v.Resolved? && (w.Unresolved? || (v.value != w.value && UsesSymbol(t, e)))
  }

  /**
   A weak reference that nothing defined when its library was relocated is 0 from then on. It differs from what a
   later scope would give if that defines the symbol somewhere else than at 0.
   */
  predicate LateWeak(t: Tables, first: Scope, final: Scope, e: Entry) {
    var sym, kind := t.sym(e.info), t.kind(e.info);
    && UsesSymbol(t, e) && sym != 0 && t.localValue(sym).None? && t.weakUndefined(sym)
    && first(sym, kind == Plt).None? && final(sym, kind == Plt).Some? && final(sym, kind == Plt).value != 0
  }

  /** If the final scope has all that the first one had, only late weak references move. */
  lemma MovedIsLate(t: Tables, first: Scope, final: Scope, e: Entry)
    requires Grows(first, final)
    ensures Moved(t, first, final, e) <==> LateWeak(t, first, final, e)
  {
  }

  /** Different values make different sums. */
  lemma AddMoves(v: Word, w: Word, x: Word)
    ensures Add(v, x) == Add(w, x) <==> v == w
  {
  }

  /** An entry that was handled under the first scope gets the same value under the final one exactly if it has not moved. */
  lemma HandledAgrees(t: Tables, first: Scope, final: Scope, waits: bool, mem: Memory, e: Entry)
    requires Judge(t, first, waits, mem, e).Write?
    ensures Judge(t, final, false, mem, e) == Judge(t, first, waits, mem, e) <==> !Moved(t, first, final, e)
  {
    var v, w, addend := Resolve(t, first, e.info), Resolve(t, final, e.info), AddendOf(t, mem, e);
    var slot := Slot(t, e);
    hide Add, Sub, AddendOf, Resolve, Slot;
    if w.Resolved? {
      AddMoves(v.value, w.value, addend);
      AddMoves(v.value, w.value, Sub(addend, slot));
      SymbolZero(t, first, final, e.info);
    }
  }

  lemma SymbolZero(t: Tables, first: Scope, final: Scope, info: Word)
    ensures t.sym(info) == 0 ==> Resolve(t, first, info) == Resolve(t, final, info)
  {
  }

  /** A deferred entry was not resolved: a later scope that resolves it and the final one agree on its value. */
  lemma DeferredAgrees(t: Tables, first: Scope, scope: Scope, final: Scope, mem: Memory, e: Entry)
    requires Judge(t, first, true, mem, e).Defer? && Grows(scope, final)
    ensures Resolve(t, scope, e.info).Resolved? ==>
      Judge(t, final, false, mem, e) == Write(Add(Resolve(t, scope, e.info).value, Judge(t, first, true, mem, e).addend))
  {
    hide Add, Sub, AddendOf;
  }

  lemma DeferredStays(t: Tables, first: Scope, final: Scope, mem: Memory, e: Entry)
    requires Judge(t, first, true, mem, e).Defer?
    ensures Relocates(t, e) && !Moved(t, first, final, e)
  {
  }

  lemma SettledAgrees(t: Tables, first: Scope, scopes: seq<Scope>, final: Scope, mem: Memory, e: Entry)
    requires Judge(t, first, true, mem, e).Defer? && AllGrow(scopes, final)
    ensures FirstResolution(t, scopes, e.info).Resolved? ==>
      Judge(t, final, false, mem, e) == Write(Add(FirstResolution(t, scopes, e.info).value, Judge(t, first, true, mem, e).addend))
  {
    GrowthKeepsFirst(t, first, scopes, final, e.info);
    hide FirstResolution, Add, Sub, AddendOf;
  }

  /** The slot of an entry after the retries: as it was written, or with the deferred addend. */
  lemma RetriedSlot(t: Tables, first: Scope, scopes: seq<Scope>, mem: Memory, es: seq<Entry>, i: nat)
    requires DistinctSlots(t, es) && Pass(t, first, true, mem, es).ok && i < |es| && Relocates(t, es[i])
    requires Judge(t, first, true, mem, es[i]).Defer? ==> FirstResolution(t, scopes, es[i].info).Resolved?
    ensures var r, v := Pass(t, first, true, mem, es), Judge(t, first, true, mem, es[i]);
      var value := Read(Retries(t, scopes, r.mem, r.deferred).mem, Slot(t, es[i]));
      if v.Defer? then value == Add(FirstResolution(t, scopes, es[i].info).value, v.addend) else v == Write(value)
  {
    var r := Pass(t, first, true, mem, es);
    PassPointwise(t, first, true, mem, es);
    WaitingIsDeferrable(t, first, mem, es);
    WaitingMembers(t, first, mem, es);
    RetriesSettle(t, scopes, r.mem, r.deferred);
    DeferOrWrite(t, first, mem, es[i]);
    var r' := Retries(t, scopes, r.mem, r.deferred);
    hide Pass, Retries, Waiting, StillUnresolved, FirstResolution, Add, Judge;
    var v := Judge(t, first, true, mem, es[i]);
    if v.Defer? {
      var d := Entry(es[i].offset, es[i].info, Some(v.addend));
      assert d in r.deferred;
      assert Read(r'.mem, Slot(t, d)) == Settlement(t, scopes, r.mem, d);
    } else {
      forall w | w in r.deferred ensures Slot(t, w) != Slot(t, es[i]) {
        var k :| 0 <= k < |es| && DefersTo(t, first, mem, es[k], w);
        DeferOrWrite(t, first, mem, es[k]);
        assert Relocates(t, es[k]) && k != i;
      }
    }
  }

  lemma DeferOrWrite(t: Tables, scope: Scope, mem: Memory, e: Entry)
    ensures var v := Judge(t, scope, true, mem, e); v.Defer? || v.Write? || v.Fail? || !Relocates(t, e)
    ensures Judge(t, scope, true, mem, e).Defer? ==> Relocates(t, e)
  {
  }

  /** It is what the final scope gives it exactly if the entry has not moved, as no deferred one has. */
  lemma SlotOutcome(t: Tables, first: Scope, scopes: seq<Scope>, final: Scope, mem: Memory, es: seq<Entry>, i: nat)
    requires DistinctSlots(t, es) && Pass(t, first, true, mem, es).ok && i < |es| && Relocates(t, es[i])
    requires AllGrow(scopes, final)
    requires Judge(t, first, true, mem, es[i]).Defer? ==> FirstResolution(t, scopes, es[i].info).Resolved?
    ensures Judge(t, first, true, mem, es[i]).Defer? ==> !Moved(t, first, final, es[i])
    ensures var r := Pass(t, first, true, mem, es);
      var value := Read(Retries(t, scopes, r.mem, r.deferred).mem, Slot(t, es[i]));
      Judge(t, final, false, mem, es[i]) == Write(value) <==> !Moved(t, first, final, es[i])
  {
    RetriedSlot(t, first, scopes, mem, es, i);
    hide Pass, Retries, FirstResolution, Add, Moved, Judge, DistinctSlots;
    if Judge(t, first, true, mem, es[i]).Defer? {
      DeferredStays(t, first, final, mem, es[i]);
      SettledAgrees(t, first, scopes, final, mem, es[i]);
    } else {
      HandledAgrees(t, first, final, true, mem, es[i]);
    }
  }

  ghost predicate NoneMoved(t: Tables, first: Scope, final: Scope, es: seq<Entry>) {
    forall i :: 0 <= i < |es| ==> !Moved(t, first, final, es[i])
  }

  /**
   Deferral against relocation at once: when the retries have left nothing waiting, relocating everything at once under
   the final scope would have succeeded and made the same memory exactly if no entry has moved.
   */
  lemma DeferralIsTransparent(t: Tables, first: Scope, scopes: seq<Scope>, final: Scope, mem: Memory, es: seq<Entry>)
    requires DistinctSlots(t, es) && Pass(t, first, true, mem, es).ok && AllGrow(scopes, final)
    requires var r := Pass(t, first, true, mem, es); Retries(t, scopes, r.mem, r.deferred).deferred == []
    ensures var r, whole := Pass(t, first, true, mem, es), Pass(t, final, false, mem, es);
      var mem' := Retries(t, scopes, r.mem, r.deferred).mem;
      (whole.ok && forall a :: Read(mem', a) == Read(whole.mem, a)) <==> NoneMoved(t, first, final, es)
  {
    var r, whole := Pass(t, first, true, mem, es), Pass(t, final, false, mem, es);
    var r' := Retries(t, scopes, r.mem, r.deferred);
    NothingWaits(t, first, scopes, mem, es);
    forall i | 0 <= i < |es| && Relocates(t, es[i])
      ensures Judge(t, final, false, mem, es[i]) == Write(Read(r'.mem, Slot(t, es[i]))) <==> !Moved(t, first, final, es[i])
    {
      SlotOutcome(t, first, scopes, final, mem, es, i);
    }
    forall a | !Touches(t, es, a) ensures Read(r'.mem, a) == Read(mem, a) {
      RetriesElsewhere(t, first, scopes, mem, es, a);
    }
    hide Retries;
    SameMemory(t, first, final, mem, r'.mem, es);
  }

  /** Memory that agrees slot by slot except where an entry has moved. */
  lemma SameMemory(t: Tables, first: Scope, final: Scope, mem: Memory, mem': Memory, es: seq<Entry>)
    requires DistinctSlots(t, es)
    requires forall i :: 0 <= i < |es| && Relocates(t, es[i]) ==>
      (Judge(t, final, false, mem, es[i]) == Write(Read(mem', Slot(t, es[i]))) <==> !Moved(t, first, final, es[i]))
    requires forall a :: Touches(t, es, a) || Read(mem', a) == Read(mem, a)
    ensures var whole := Pass(t, final, false, mem, es);
      (whole.ok && forall a :: Read(mem', a) == Read(whole.mem, a)) <==> NoneMoved(t, first, final, es)
  {
    var whole := Pass(t, final, false, mem, es);
    forall i | 0 <= i < |es| && !Relocates(t, es[i])
      ensures Judge(t, final, false, mem, es[i]) == Skip && !Moved(t, first, final, es[i])
    {
      NoRelocSkips(t, final, false, mem, es[i]);
    }
    forall i | 0 <= i < |es| && Relocates(t, es[i]) && !Judge(t, final, false, mem, es[i]).Fail?
      ensures Judge(t, final, false, mem, es[i]).Write?
    {
      OnlyWrites(t, final, mem, es[i]);
    }
    if NoneMoved(t, first, final, es) {
      hide Judge, Moved, Slot;
      PassSucceeds(t, final, false, mem, es);
      PassPointwise(t, final, false, mem, es);
    } else if whole.ok {
      PassPointwise(t, final, false, mem, es);
      hide Judge, Moved, Slot;
      var i :| 0 <= i < |es| && Moved(t, first, final, es[i]);
      assert Read(whole.mem, Slot(t, es[i])) == SlotValue(t, final, false, mem, es[i]);
    }
  }

  lemma OnlyWrites(t: Tables, scope: Scope, mem: Memory, e: Entry)
    requires Relocates(t, e)
    ensures Judge(t, scope, false, mem, e).Write? || Judge(t, scope, false, mem, e).Fail?
  {
  }

  /** What is searched while a library is opened: the global scope, then what the call added to it. */
  function Extended(global: Scope, own: Scope): Scope {
    (n: nat, d: bool) => if global(n, d).Some? then global(n, d) else own(n, d)
  }

  /**
   A library is opened without RTLD_GLOBAL, so that what the call added leaves the scope again. An entry that uses a
   symbol has moved exactly if the global scope did not define the symbol, something else resolved it, and the final
   scope does not define it or defines it elsewhere.
   */
  lemma LocalMoves(t: Tables, global: Scope, own: Scope, final: Scope, e: Entry)
    requires Grows(global, final) && UsesSymbol(t, e) && t.sym(e.info) != 0 && t.localValue(t.sym(e.info)).None?
    ensures var n, d := t.sym(e.info), t.kind(e.info) == Plt;
      var weak := t.weakUndefined(n);
      Moved(t, Extended(global, own), final, e) <==>
        && global(n, d).None? && (own(n, d).Some? || weak)
        && if final(n, d).None? && !weak then true else ValueOf(final(n, d)) != ValueOf(own(n, d))
  {
  }

  function ValueOf(v: Option<Word>): Word {
    if v.Some? then v.value else 0
  }

  /**
   A library that is opened without RTLD_GLOBAL refers to a symbol of its own, at 5. Relocated again under the global
   scope it would fail, and if a later library defines the symbol at 9 it would get that.
   */
  lemma LocalDiffers()
    ensures var t, es := Tables(0, _ => Got, _ => 1, _ => None, _ => false), [Entry(0, 0, None)];
      var global: Scope, own: Scope, later: Scope := (_, _) => None, (_, _) => Some(5), (_, _) => Some(9);
      && Grows(global, later) && Pass(t, Extended(global, own), true, map[], es) == Result(map[0 := 5], [], true)
      && !Pass(t, global, false, map[], es).ok && Pass(t, later, false, map[], es) == Result(map[0 := 9], [], true)
      && Moved(t, Extended(global, own), global, es[0]) && Moved(t, Extended(global, own), later, es[0])
      && !LateWeak(t, Extended(global, own), global, es[0]) && !LateWeak(t, Extended(global, own), later, es[0])
  {
    var t, e := Tables(0, _ => Got, _ => 1, _ => None, _ => false), Entry(0, 0, None);
    var global: Scope, own: Scope, later: Scope := (_, _) => None, (_, _) => Some(5), (_, _) => Some(9);
    PassOne(t, Extended(global, own), true, map[], e);
    PassOne(t, global, false, map[], e);
    PassOne(t, later, false, map[], e);
  }

  lemma PassOne(t: Tables, scope: Scope, canDefer: bool, mem: Memory, e: Entry)
    ensures Pass(t, scope, canDefer, mem, [e]) == After(t, scope, canDefer, Result(mem, [], true), e)
  {
    assert [e][..0] == [];
  }

  /** A weak reference that a later scope defines at 5 keeps its 0, while relocating it then would have written 5. */
  lemma WeakStaysZero()
    ensures var t := Tables(0, _ => Got, _ => 1, _ => None, _ => true);
      var first, final: Scope, es := (_, _) => None, (_, _) => Some(5), [Entry(0, 0, None)];
      && Grows(first, final) && LateWeak(t, first, final, es[0])
      && Pass(t, first, true, map[], es) == Result(map[0 := 0], [], true)
      && Pass(t, final, false, map[], es) == Result(map[0 := 5], [], true)
  {
    var t := Tables(0, _ => Got, _ => 1, _ => None, _ => true);
    var first: Scope, final: Scope, e := (_, _) => None, (_, _) => Some(5), Entry(0, 0, None);
    PassOne(t, first, true, map[], e);
    PassOne(t, final, false, map[], e);
  }

  /** Retrying again under the same scope changes nothing. */
  lemma {:induction false} RetryAgain(t: Tables, scope: Scope, mem: Memory, es: seq<Entry>)
    requires Deferrable(t, es) && forall e :: e in es ==> Resolve(t, scope, e.info).Unresolved?
    ensures Pass(t, scope, true, mem, es) == Result(mem, es, true)
  {
    if es != [] {
      var front, e := es[..|es| - 1], es[|es| - 1];
      assert es == front + [e] && e in es;
      RetryAgain(t, scope, mem, front);
    }
  }

  lemma NothingWaits(t: Tables, first: Scope, scopes: seq<Scope>, mem: Memory, es: seq<Entry>)
    requires DistinctSlots(t, es) && Pass(t, first, true, mem, es).ok
    requires var r := Pass(t, first, true, mem, es); Retries(t, scopes, r.mem, r.deferred).deferred == []
    ensures forall i :: 0 <= i < |es| && Judge(t, first, true, mem, es[i]).Defer? ==>
              FirstResolution(t, scopes, es[i].info).Resolved?
  {
    var r := Pass(t, first, true, mem, es);
    PassPointwise(t, first, true, mem, es);
    WaitingIsDeferrable(t, first, mem, es);
    WaitingMembers(t, first, mem, es);
    RetriesSettle(t, scopes, r.mem, r.deferred);
    StillUnresolvedMembers(t, scopes, r.deferred);
    hide Pass, Retries, Waiting, StillUnresolved, FirstResolution;
    forall i | 0 <= i < |es| && Judge(t, first, true, mem, es[i]).Defer?
      ensures FirstResolution(t, scopes, es[i].info).Resolved?
    {
      assert Entry(es[i].offset, es[i].info, Some(Judge(t, first, true, mem, es[i]).addend)) in r.deferred;
    }
  }

  lemma RetriesElsewhere(t: Tables, first: Scope, scopes: seq<Scope>, mem: Memory, es: seq<Entry>, a: Word)
    requires DistinctSlots(t, es) && Pass(t, first, true, mem, es).ok && !Touches(t, es, a)
    ensures var r := Pass(t, first, true, mem, es); Read(Retries(t, scopes, r.mem, r.deferred).mem, a) == Read(mem, a)
  {
    var r := Pass(t, first, true, mem, es);
    PassPointwise(t, first, true, mem, es);
    WaitingIsDeferrable(t, first, mem, es);
    WaitingMembers(t, first, mem, es);
    RetriesSettle(t, scopes, r.mem, r.deferred);
    hide Pass, Retries, Waiting;
    forall d | d in r.deferred ensures Slot(t, d) != a {
      var i :| 0 <= i < |es| && DefersTo(t, first, mem, es[i], d);
      assert Relocates(t, es[i]);
    }
  }

  /** A pass over two tables one after the other is a pass over both. */
  lemma {:induction false} PassConcat(t: Tables, scope: Scope, canDefer: bool, mem: Memory, a: seq<Entry>, b: seq<Entry>)
    requires Pass(t, scope, canDefer, mem, a).ok
    ensures var r1 := Pass(t, scope, canDefer, mem, a);
      var r2 := Pass(t, scope, canDefer, r1.mem, b);
      Pass(t, scope, canDefer, mem, a + b) == r2.(deferred := r1.deferred + r2.deferred)
  {
    var r1 := Pass(t, scope, canDefer, mem, a);
    if b == [] {
      assert a + b == a && r1.deferred + [] == r1.deferred;
    } else {
      var front, e := b[..|b| - 1], b[|b| - 1];
      PassConcat(t, scope, canDefer, mem, a, front);
      assert (a + b)[..|a + b| - 1] == a + front;
      AfterBehind(t, scope, canDefer, Pass(t, scope, canDefer, r1.mem, front), r1.deferred, e);
      hide After;
    }
  }

  lemma AfterBehind(t: Tables, scope: Scope, canDefer: bool, r: Result, before: seq<Entry>, e: Entry)
    ensures var r' := After(t, scope, canDefer, r, e);
      After(t, scope, canDefer, r.(deferred := before + r.deferred), e) == r'.(deferred := before + r'.deferred)
  {
    hide Judge;
    var d := After(t, scope, canDefer, r, e).deferred;
    assert After(t, scope, canDefer, r.(deferred := before + r.deferred), e).deferred == before + d;
  }
}
