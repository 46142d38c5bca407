/**
 Symbol lookup: the two string hashes, lookup in one DSO through either kind of hash table, and the
 search through a scope of DSOs that relocation and dlsym use.
 */
module SymbolLookup {
  import opened Basics
  import opened Words

  type Name = seq<bv8>  // without the terminating zero byte

  // ---------------------------------------------------------------------------------------------
  // Hashes
  // ---------------------------------------------------------------------------------------------

  /** The reference hash folds the top nibble in and clears it. */
  function ElfFold(sum: bv32): bv32 {
    var g := sum & 0xf000_0000;
    (sum ^ (g >> 24)) & !g
  }

  function AddByte(h: bv32, c: bv8): bv32 {
    h + (c as bv32)
  }

  function ElfSum(h: bv32, c: bv8): bv32 {
    AddByte(h << 4, c)
  }

  /** The hash of section "Hash Table", chapter 5 of the System V gABI. */
  function ElfHash(s: Name): bv32 {
    if s == [] then 0 else ElfFold(ElfSum(ElfHash(s[..|s| - 1]), s[|s| - 1]))
  }

  /** The linker folds the top nibble in but leaves it standing. */
  function FastFold(sum: bv32): bv32 {
    sum ^ ((sum >> 24) & 0xf0)
  }

  function Sixteenfold(h: bv32): bv32 {
    16 * h
  }

  function FastSum(h: bv32, c: bv8): bv32 {
    AddByte(Sixteenfold(h), c)
  }

  function Low28(h: bv32): bv32 {
    h & 0x0fff_ffff
  }

  lemma TimesSixteen(h: bv32)
    ensures Sixteenfold(h) == h << 4
  {
  }

  lemma ShiftDropsTopNibble(h: bv32)
    ensures Low28(h) << 4 == h << 4
  {
  }

  lemma SumsAgree(h: bv32, c: bv8)
    ensures FastSum(h, c) == ElfSum(Low28(h), c)
  {
    hide Low28, Sixteenfold, AddByte;
    TimesSixteen(h);
    ShiftDropsTopNibble(h);
  }

  lemma FoldsAgree(sum: bv32)
    ensures Low28(FastFold(sum)) == ElfFold(sum)
  {
  }

  method SysvHash(s: Name) returns (r: bv32)
    ensures r == ElfHash(s)
  {
    assert Low28(0) == 0;
    hide Low28, FastSum, FastFold, ElfSum, ElfFold;
    var h: bv32 := 0;
    for i := 0 to |s|
      invariant Low28(h) == ElfHash(s[..i])
    {
      assert s[..i + 1][..i] == s[..i];
      SumsAgree(h, s[i]);
      h := FastSum(h, s[i]);
      FoldsAgree(h);
      h := FastFold(h);
    }
    assert s[..|s|] == s;
    r := Low28(h);
  }

  function DjbRound(h: bv32, c: bv8): bv32 {
    33 * h + (c as bv32)
  }

  /** The hash of the GNU table: 5381, then 33 times the hash plus the byte, modulo 2 to the 32. */
  function DjbHash(s: Name): bv32 {
    if s == [] then 5381 else DjbRound(DjbHash(s[..|s| - 1]), s[|s| - 1])
  }

  function GnuRound(h: bv32, c: bv8): bv32 {
    h + (h * 32 + (c as bv32))
  }

  lemma GnuRoundsAgree(h: bv32, c: bv8)
    ensures GnuRound(h, c) == DjbRound(h, c)
  {
  }

  method GnuHash(s: Name) returns (h: bv32)
    ensures h == DjbHash(s)
  {
    hide GnuRound, DjbRound;
    h := 5381;
    for i := 0 to |s|
      invariant h == DjbHash(s[..i])
    {
      assert s[..i + 1][..i] == s[..i];
      GnuRoundsAgree(h, s[i]);
      h := GnuRound(h, s[i]);
    }
    assert s[..|s|] == s;
  }

  // ---------------------------------------------------------------------------------------------
  // Tables
  // ---------------------------------------------------------------------------------------------

  /** st_name (resolved), st_shndx, st_value and the two halves of st_info. */
  datatype Symbol = Symbol(name: Name, shndx: nat, value: nat, kind: nat, bind: nat)

  datatype GnuTable = GnuTable(symoffset: nat, shift: nat, bloom: seq<nat>, buckets: seq<nat>, hashvals: seq<bv32>)

  /** hashtab: the number of buckets and of chain links, then the buckets, then the links. */
  datatype HashTable = Gnu(gnu: GnuTable) | Sysv(hashtab: seq<nat>)

  datatype Dso = Dso(symbols: seq<Symbol>, versions: Option<seq<int>>, table: HashTable)
  {
    predicate Visible(i: nat) {
      versions.None? || (i < |versions.value| && versions.value[i] >= 0)
    }

    predicate Matches(i: nat, s: Name) {
      i < |symbols| && Visible(i) && symbols[i].name == s
    }
  }

  predicate EndsChain(h: bv32) { h & 1 == 1 }

  predicate SameHash(h1: bv32, h2: bv32) { h1 | 1 == h2 | 1 }

  /** Which of size filter words the linker reads for a hash: it masks with size - 1. */
  function BloomWord(h: bv32, size: nat): (w: nat)
    requires size > 0
    ensures w < size
  {
    And(h as nat / 64, size - 1)
  }

  /** The linker's two tests of that word: one with a shifted mask, one with the word shifted. */
  predicate PassesFirst(word: nat, h: bv32) { And(word, Pow2(h as nat % 64)) != 0 }

  predicate PassesSecond(word: nat, h: bv32, shift: nat) { And(High(word, High(h as nat, shift) % 64), 1) != 0 }

  /** Bit b of a word, by its place value. */
  predicate BitSet(word: nat, b: nat) { word / Pow2(b) % 2 == 1 }

  lemma {:induction false} MaskTestsBit(word: nat, b: nat)
    ensures And(word, Pow2(b)) != 0 <==> High(word, b) % 2 == 1
  {
    if b == 0 {
      OneMasks(word);
    } else {
      MaskTestsBit(word / 2, b - 1);
      if word == 0 { HighOfZero(b); } else { assert Pow2(b) % 2 == 0 && Pow2(b) / 2 == Pow2(b - 1); }
    }
  }

  lemma OneMasks(x: nat)
    ensures And(x, 1) != 0 <==> x % 2 == 1
  {
    if x > 0 { assert And(x / 2, 0) == 0; }
  }

  lemma {:induction false} HighOfZero(k: nat)
    ensures High(0, k) == 0
  {
    if k > 0 { HighOfZero(k - 1); }
  }

  /** The filter as the format has it: two bits in the word that the hash divided by 64 selects. */
  ghost predicate InBloom(t: GnuTable, h: bv32)
    requires |t.bloom| > 0
  {
    var word := t.bloom[h as nat / 64 % |t.bloom|];
    BitSet(word, h as nat % 64) && BitSet(word, h as nat / Pow2(t.shift) % 64)
  }

  /** The linker's masked and shifted reads are the filter. */
  lemma FilterReads(t: GnuTable, h: bv32)
    requires 0 < |t.bloom| < WORD && IsPow2(|t.bloom|)
    ensures var word := t.bloom[BloomWord(h, |t.bloom|)];
      PassesFirst(word, h) && PassesSecond(word, h, t.shift) <==> InBloom(t, h)
  {
    hide And, High, Pow2, IsPow2;
    MaskIsMod(h as nat / 64, |t.bloom|);
    var word := t.bloom[BloomWord(h, |t.bloom|)];
    MaskTestsBit(word, h as nat % 64);
    HighIsDiv(word, h as nat % 64);
    HighIsDiv(h as nat, t.shift);
    HighIsDiv(word, h as nat / Pow2(t.shift) % 64);
    OneMasks(High(word, High(h as nat, t.shift) % 64));
  }

  ghost predicate GnuWellFormed(d: Dso, t: GnuTable) {
    && 0 < |t.buckets| && 0 < |t.bloom| < 0x1_0000_0000 && IsPow2(|t.bloom|)
    && t.symoffset <= |d.symbols| && |t.hashvals| == |d.symbols| - t.symoffset
    && (d.versions.Some? ==> |d.versions.value| == |d.symbols|)
    && (forall b :: 0 <= b < |t.buckets| && t.buckets[b] != 0 ==> GnuChainEnds(t, t.buckets[b]))
    && (forall i :: t.symoffset <= i < |d.symbols| ==> GnuIndexed(d, t, i))
  }

  /** The chain from symbol i on ends inside the table. */
  ghost predicate GnuChainEnds(t: GnuTable, i: nat) {
    t.symoffset <= i && exists e :: i <= e && IsLast(t, e)
  }

  ghost predicate IsLast(t: GnuTable, i: int) {
    t.symoffset <= i < t.symoffset + |t.hashvals| && EndsChain(t.hashvals[i - t.symoffset])
  }

  /** Symbol i can be found: by its bloom bits, its bucket, the chain up to it and its hash. */
  ghost predicate GnuIndexed(d: Dso, t: GnuTable, i: nat)
    requires 0 < |t.buckets| && 0 < |t.bloom| && t.symoffset <= i < |d.symbols| && |t.hashvals| == |d.symbols| - t.symoffset
  {
    var h := DjbHash(d.symbols[i].name);
    SameHash(h, t.hashvals[i - t.symoffset]) && Chained(t, i, Value(h) % |t.buckets|) && InBloom(t, h)
  }

  function Value(h: bv32): nat {
    h as nat
  }

  /** Symbol i is on the chain of bucket b. */
  ghost predicate Chained(t: GnuTable, i: nat, b: nat)
    requires b < |t.buckets|
  {
    0 != t.buckets[b] <= i && forall k :: t.buckets[b] <= k < i ==> !IsLast(t, k)
  }

  /** r is the match of lowest index among the hashed symbols. */
  ghost predicate IsLowestMatch(d: Dso, from: nat, s: Name, r: Option<nat>) {
    match r
    case None => forall i: nat :: from <= i ==> !d.Matches(i, s)
    case Some(i) => from <= i && d.Matches(i, s) && forall k: nat :: from <= k < i ==> !d.Matches(k, s)
  }

  /** A symbol that matches is where the lookup will search for it. */
  lemma MatchIsIndexed(d: Dso, t: GnuTable, i: nat, s: Name)
    requires GnuWellFormed(d, t) && t.symoffset <= i && d.Matches(i, s)
    ensures SameHash(DjbHash(s), t.hashvals[i - t.symoffset]) && InBloom(t, DjbHash(s))
    ensures 0 != t.buckets[DjbHash(s) as nat % |t.buckets|] <= i
    ensures forall k :: t.buckets[DjbHash(s) as nat % |t.buckets|] <= k < i ==> !IsLast(t, k)
  {
    hide InBloom, SameHash, DjbHash;
    assert GnuIndexed(d, t, i);
  }

  method GnuLookup(d: Dso, t: GnuTable, s: Name, h1: bv32) returns (r: Option<nat>)
    requires GnuWellFormed(d, t) && h1 == DjbHash(s)
    ensures IsLowestMatch(d, t.symoffset, s, r)
  {
    hide SameHash, EndsChain, DjbHash, InBloom;
    var i := t.buckets[h1 as nat % |t.buckets|];
    ghost var first := i;
    forall k: nat | t.symoffset <= k && d.Matches(k, s)
      ensures 0 != first <= k && SameHash(h1, t.hashvals[k - t.symoffset])
      ensures forall m :: first <= m < k ==> !IsLast(t, m)
    {
      MatchIsIndexed(d, t, k, s);
    }
    if i == 0 {
      return None;
    }
    ghost var e :| i <= e && IsLast(t, e);
    while true
      invariant t.symoffset <= first <= i <= e
      invariant forall k: nat :: t.symoffset <= k < i ==> !d.Matches(k, s)
      decreases e - i
    {
      var h2 := t.hashvals[i - t.symoffset];
      if SameHash(h1, h2) && d.Visible(i) && d.symbols[i].name == s {
        return Some(i);
      }
      if EndsChain(h2) {
        assert IsLast(t, i);
        return None;
      }
      i := i + 1;
    }
  }

  method GnuLookupFiltered(d: Dso, t: GnuTable, s: Name, h1: bv32) returns (r: Option<nat>)
    requires GnuWellFormed(d, t) && h1 == DjbHash(s)
    ensures IsLowestMatch(d, t.symoffset, s, r)
  {
    hide PassesFirst, PassesSecond, BloomWord, DjbHash, GnuIndexed, InBloom, IsPow2;
    var f := t.bloom[BloomWord(h1, |t.bloom|)];
    FilterReads(t, h1);
    if !PassesFirst(f, h1) || !PassesSecond(f, h1, t.shift) {
      forall k: nat | t.symoffset <= k ensures !d.Matches(k, s) {
        if d.Matches(k, s) { MatchIsIndexed(d, t, k, s); }
      }
      return None;
    }
    r := GnuLookup(d, t, s, h1);
  }

  // ---------------------------------------------------------------------------------------------
  // System V tables
  // ---------------------------------------------------------------------------------------------

  /** chain lists the symbols from index i on, following the links to the zero that ends them. */
  ghost predicate IsChain(hashtab: seq<nat>, i: nat, chain: seq<nat>)
    requires |hashtab| >= 2
    decreases |chain|
  {
    if i == 0 then chain == []
    else
      && |chain| > 0 && chain[0] == i && 2 + hashtab[0] + i < |hashtab|
      && IsChain(hashtab, hashtab[2 + hashtab[0] + i], chain[1..])
  }

  ghost predicate HasChain(hashtab: seq<nat>, i: nat)
    requires |hashtab| >= 2
  {
    exists chain :: IsChain(hashtab, i, chain)
  }

  function Bucket(hashtab: seq<nat>, h: bv32): nat
    requires |hashtab| >= 2 && 0 < hashtab[0] && 2 + hashtab[0] <= |hashtab|
  {
    hashtab[2 + h as nat % hashtab[0]]
  }

  /** A table in a file: how many buckets and chain entries there are, then the buckets, then the entries. */
  function Laid(buckets: seq<nat>, links: seq<nat>): seq<nat> {
    [|buckets|, |links|] + buckets + links
  }

  /** A hash selects a bucket by its remainder. */
  lemma BucketOfTable(buckets: seq<nat>, links: seq<nat>, h: bv32, b: nat)
    requires b < |buckets| && b == h as nat % |buckets|
    ensures |Laid(buckets, links)| >= 2 + Laid(buckets, links)[0] && Laid(buckets, links)[0] == |buckets|
    ensures Bucket(Laid(buckets, links), h) == buckets[b]
  {
  }

  /** A symbol's entry is the next symbol of its chain. */
  lemma LinkOfTable(buckets: seq<nat>, links: seq<nat>, i: nat, chain: seq<nat>)
    requires 0 < i < |links|
    ensures |Laid(buckets, links)| >= 2
    ensures IsChain(Laid(buckets, links), i, chain) <==>
              chain != [] && chain[0] == i && IsChain(Laid(buckets, links), links[i], chain[1..])
  {
    LaidAt(buckets, links, i);
    hide Laid;
  }

  lemma LaidAt(buckets: seq<nat>, links: seq<nat>, i: nat)
    requires i < |links|
    ensures var table := Laid(buckets, links);
      |table| == 2 + |buckets| + |links| && table[0] == |buckets| && table[2 + |buckets| + i] == links[i]
  {
  }

  ghost predicate SysvWellFormed(d: Dso, hashtab: seq<nat>) {
    && |hashtab| >= 2 && 0 < hashtab[0] && |hashtab| == 2 + hashtab[0] + hashtab[1] && hashtab[1] == |d.symbols|
    && (d.versions.Some? ==> |d.versions.value| == |d.symbols|)
    && (forall b :: 2 <= b < 2 + hashtab[0] ==> HasChain(hashtab, hashtab[b]))
    && (forall i, chain :: 0 < i < |d.symbols| && IsChain(hashtab, Bucket(hashtab, ElfHash(d.symbols[i].name)), chain)
          ==> i in chain)
  }

  /** r is the first match along the chain. */
  ghost predicate IsFirstInChain(d: Dso, chain: seq<nat>, s: Name, r: Option<nat>) {
    match r
    case None => forall k :: 0 <= k < |chain| ==> !d.Matches(chain[k], s)
    case Some(i) =>
      exists k ::
        0 <= k < |chain| && chain[k] == i && d.Matches(i, s) && forall m :: 0 <= m < k ==> !d.Matches(chain[m], s)
  }

  ghost predicate IsSysvAnswer(d: Dso, hashtab: seq<nat>, s: Name, r: Option<nat>)
    requires SysvWellFormed(d, hashtab)
  {
    exists chain :: IsChain(hashtab, Bucket(hashtab, ElfHash(s)), chain) && IsFirstInChain(d, chain, s, r)
  }

  lemma {:induction false} ChainUnique(hashtab: seq<nat>, i: nat, c1: seq<nat>, c2: seq<nat>)
    requires |hashtab| >= 2 && IsChain(hashtab, i, c1) && IsChain(hashtab, i, c2)
    ensures c1 == c2
    decreases |c1|
  {
    if i != 0 {
      ChainUnique(hashtab, hashtab[2 + hashtab[0] + i], c1[1..], c2[1..]);
      assert c1 == [i] + c1[1..] && c2 == [i] + c2[1..];
    }
  }

  /** A table misses no symbol: the answer is None only when no symbol but the reserved first one matches. */
  lemma SysvMissesNothing(d: Dso, hashtab: seq<nat>, s: Name)
    requires SysvWellFormed(d, hashtab)
    ensures IsSysvAnswer(d, hashtab, s, None) ==> forall i: nat :: 0 < i ==> !d.Matches(i, s)
  {
    hide ElfHash;
  }

  method SysvLookup(d: Dso, hashtab: seq<nat>, s: Name, h: bv32) returns (r: Option<nat>)
    requires SysvWellFormed(d, hashtab) && h == ElfHash(s)
    ensures IsSysvAnswer(d, hashtab, s, r)
  {
    hide ElfHash;
    var i: nat := hashtab[2 + h as nat % hashtab[0]];
    assert HasChain(hashtab, i);
    ghost var chain :| IsChain(hashtab, i, chain);
    ghost var rest := chain;
    while i != 0
      invariant |rest| <= |chain| && rest == chain[|chain| - |rest|..] && IsChain(hashtab, i, rest)
      invariant forall m :: 0 <= m < |chain| - |rest| ==> !d.Matches(chain[m], s)
      decreases |rest|
    {
      assert chain[|chain| - |rest|] == i;
      if d.Visible(i) && d.symbols[i].name == s {
        assert IsFirstInChain(d, chain, s, Some(i));
        return Some(i);
      }
      i := hashtab[2 + hashtab[0] + i];
      rest := rest[1..];
    }
    assert IsFirstInChain(d, chain, s, None);
    return None;
  }

  // ---------------------------------------------------------------------------------------------
  // Scopes
  // ---------------------------------------------------------------------------------------------

  const STT_NOTYPE := 0
  const STT_OBJECT := 1
  const STT_FUNC := 2
  const STT_COMMON := 5
  const STT_TLS := 6
  const STB_GLOBAL := 1
  const STB_WEAK := 2
  const STB_GNU_UNIQUE := 10
  const OK_TYPES: set<nat> := {STT_NOTYPE, STT_OBJECT, STT_FUNC, STT_COMMON, STT_TLS}
  const OK_BINDS: set<nat> := {STB_GLOBAL, STB_WEAK, STB_GNU_UNIQUE}

  function Bit(k: nat): bv16
    requires k < 16
  {
    (1 as bv16) << k
  }

  /** The masks that the source tests the two halves of st_info against, one shifted bit for each number. */
  function TypeMask(): bv16 { Bit(0) | Bit(1) | Bit(2) | Bit(5) | Bit(6) }

  function BindMask(): bv16 { Bit(1) | Bit(2) | Bit(10) }

  /** For every value of either half the sets say what the masks say. */
  lemma AdmittedByMask(k: nat)
    requires k < 16
    ensures k in OK_TYPES <==> Bit(k) & TypeMask() != 0
    ensures k in OK_BINDS <==> Bit(k) & BindMask() != 0
  {
    MasksAre();
    hide TypeMask, BindMask;
    match k {
      case 0 => assert Bit(0) == 0x1;
      case 1 => assert Bit(1) == 0x2;
      case 2 => assert Bit(2) == 0x4;
      case 3 => assert Bit(3) == 0x8;
      case 4 => assert Bit(4) == 0x10;
      case 5 => assert Bit(5) == 0x20;
      case 6 => assert Bit(6) == 0x40;
      case 7 => assert Bit(7) == 0x80;
      case 8 => assert Bit(8) == 0x100;
      case 9 => assert Bit(9) == 0x200;
      case 10 => assert Bit(10) == 0x400;
      case 11 => assert Bit(11) == 0x800;
      case 12 => assert Bit(12) == 0x1000;
      case 13 => assert Bit(13) == 0x2000;
      case 14 => assert Bit(14) == 0x4000;
      case _ => assert Bit(15) == 0x8000;
    }
  }

  lemma MasksAre()
    ensures TypeMask() == 0x67 && BindMask() == 0x406
  {
    assert Bit(0) == 0x1 && Bit(1) == 0x2 && Bit(2) == 0x4 && Bit(5) == 0x20 && Bit(6) == 0x40 && Bit(10) == 0x400;
  }

  /** Does a symbol that was looked up count as a definition? */
  predicate Accepts(sym: Symbol, needDef: bool) {
    && (sym.shndx == 0 ==> !needDef && sym.kind != STT_TLS)
    && (sym.value == 0 ==> sym.kind == STT_TLS)
    && sym.kind in OK_TYPES && sym.bind in OK_BINDS
  }

  ghost predicate WellFormed(d: Dso) {
    match d.table
    case Gnu(t) => GnuWellFormed(d, t)
    case Sysv(hashtab) => SysvWellFormed(d, hashtab)
  }

  /** The one symbol a DSO offers for a name. */
  ghost predicate Offers(d: Dso, s: Name, r: Option<nat>)
    requires WellFormed(d)
  {
    match d.table
    case Gnu(t) => IsLowestMatch(d, t.symoffset, s, r)
    case Sysv(hashtab) => IsSysvAnswer(d, hashtab, s, r)
  }

  ghost predicate Defines(d: Dso, s: Name, needDef: bool, i: nat)
    requires WellFormed(d)
  {
    i < |d.symbols| && Offers(d, s, Some(i)) && Accepts(d.symbols[i], needDef)
  }

  datatype Definition = Definition(dso: nat, sym: nat)

  /** The naive search: the first DSO in scope whose symbol for the name passes the filters. */
  ghost predicate IsFirstDefinition(scope: seq<Dso>, s: Name, needDef: bool, r: Option<Definition>)
    requires forall k :: 0 <= k < |scope| ==> WellFormed(scope[k])
  {
    match r
    case None => forall k, i: nat :: 0 <= k < |scope| ==> !Defines(scope[k], s, needDef, i)
    case Some(def) =>
      && def.dso < |scope| && Defines(scope[def.dso], s, needDef, def.sym)
      && forall k, i: nat :: 0 <= k < def.dso ==> !Defines(scope[k], s, needDef, i)
  }

  lemma OfferUnique(d: Dso, s: Name, r1: Option<nat>, r2: Option<nat>)
    requires WellFormed(d) && Offers(d, s, r1) && Offers(d, s, r2)
    ensures r1 == r2
  {
    hide ElfHash;
    if d.table.Sysv? {
      var h := d.table.hashtab;
      var c1 :| IsChain(h, Bucket(h, ElfHash(s)), c1) && IsFirstInChain(d, c1, s, r1);
      var c2 :| IsChain(h, Bucket(h, ElfHash(s)), c2) && IsFirstInChain(d, c2, s, r2);
      ChainUnique(h, Bucket(h, ElfHash(s)), c1, c2);
    }
  }

  lemma OfferMatches(d: Dso, s: Name, i: nat)
    requires WellFormed(d) && Offers(d, s, Some(i))
    ensures d.Matches(i, s)
  {
  }

  /** What a definition looks like: each test of the search on the fields of the symbol. */
  ghost predicate Answers(d: Dso, i: nat, s: Name, needDef: bool) {
    && i < |d.symbols| && d.symbols[i].name == s
    && (d.versions.Some? ==> i < |d.versions.value| && 0 <= d.versions.value[i])
    && var sym := d.symbols[i];
       && (needDef ==> sym.shndx != 0)                          // a definition where one is asked for,
       && (sym.shndx == 0 ==> sym.kind != 6 && sym.value != 0)  // else an address for an undefined symbol will do
       && (sym.value == 0 ==> sym.kind == 6)                    // only thread-local symbols may be at 0
       && (sym.kind < 16 ==> Bit(sym.kind) & TypeMask() != 0)
       && (sym.bind < 16 ==> Bit(sym.bind) & BindMask() != 0)
  }

  lemma AcceptedAnswers(d: Dso, i: nat, s: Name, needDef: bool)
    requires d.Matches(i, s) && Accepts(d.symbols[i], needDef)
    ensures Answers(d, i, s, needDef)
  {
    var sym := d.symbols[i];
    if sym.kind < 16 { AdmittedByMask(sym.kind); }
    if sym.bind < 16 { AdmittedByMask(sym.bind); }
    hide TypeMask, BindMask, Bit;
  }

  /**
   A symbol that the first DSO offers is the answer if and only if it is a definition, or has an address, is not
   thread-local and no definition is asked for; and is of an admitted type and binding, and at 0 only if thread-local.
   */
  lemma FirstIsAnswer(scope: seq<Dso>, s: Name, needDef: bool, def: Option<Definition>, i: nat)
    requires scope != [] && forall k :: 0 <= k < |scope| ==> WellFormed(scope[k])
    requires IsFirstDefinition(scope, s, needDef, def)
    requires i < |scope[0].symbols| && Offers(scope[0], s, Some(i))
    requires scope[0].symbols[i].kind < 16 && scope[0].symbols[i].bind < 16
    ensures var sym := scope[0].symbols[i];
      def == Some(Definition(0, i)) <==>
        && (sym.shndx != 0 || (!needDef && sym.kind != 6)) && (sym.value != 0 || sym.kind == 6)
        && Bit(sym.kind) & TypeMask() != 0 && Bit(sym.bind) & BindMask() != 0
  {
    var sym := scope[0].symbols[i];
    AdmittedByMask(sym.kind);
    AdmittedByMask(sym.bind);
    hide TypeMask, BindMask, Bit, Offers;
    assert Accepts(sym, needDef) <==> Defines(scope[0], s, needDef, i);
    if def.Some? && def.value.dso == 0 {
      OfferUnique(scope[0], s, Some(i), Some(def.value.sym));
    }
  }

  /**
   An undefined function with an address, as an executable has for the address of a function of a library, is what a
   reference finds unless it asks for a definition; that one goes on to the library.
   */
  lemma StubAndDefinition(exe: Dso, lib: Dso, s: Name, i: nat, j: nat, def: Option<Definition>, needDef: bool)
    requires WellFormed(exe) && WellFormed(lib) && IsFirstDefinition([exe, lib], s, needDef, def)
    requires i < |exe.symbols| && j < |lib.symbols| && Offers(exe, s, Some(i)) && Offers(lib, s, Some(j))
    requires exe.symbols[i].shndx == 0 && exe.symbols[i].value != 0 && lib.symbols[j].shndx != 0 && lib.symbols[j].value != 0
    requires exe.symbols[i].kind == lib.symbols[j].kind == STT_FUNC && exe.symbols[i].bind == lib.symbols[j].bind == STB_GLOBAL
    ensures def == Some(if needDef then Definition(1, j) else Definition(0, i))
  {
    hide Offers;
    var scope := [exe, lib];
    assert scope[0] == exe && scope[1] == lib;
    assert Defines(scope[1], s, needDef, j);
    assert !needDef ==> Defines(scope[0], s, needDef, i);
    if def.Some? {
      OfferUnique(exe, s, Some(i), if def.value.dso == 0 then Some(def.value.sym) else Some(i));
      OfferUnique(lib, s, Some(j), if def.value.dso == 1 then Some(def.value.sym) else Some(j));
    }
  }

  method FindSym(scope: seq<Dso>, s: Name, needDef: bool) returns (def: Option<Definition>)
    requires forall k :: 0 <= k < |scope| ==> WellFormed(scope[k])
    ensures IsFirstDefinition(scope, s, needDef, def)
    ensures def.Some? ==> def.value.dso < |scope| && Answers(scope[def.value.dso], def.value.sym, s, needDef)
  {
    var h: bv32 := 0;
    var gh := GnuHash(s);
    for n := 0 to |scope|
      invariant h == 0 || h == ElfHash(s)
      invariant forall k, i: nat :: 0 <= k < n ==> !Defines(scope[k], s, needDef, i)
    {
      var d := scope[n];
      var sym;
      match d.table {
        case Gnu(t) => sym := GnuLookupFiltered(d, t, s, gh);
        case Sysv(hashtab) =>
          if h == 0 { h := SysvHash(s); }
          sym := SysvLookup(d, hashtab, s, h);
      }
      assert Offers(d, s, sym);
      if sym.Some? && Accepts(d.symbols[sym.value], needDef) {
        OfferMatches(d, s, sym.value);
        AcceptedAnswers(d, sym.value, s, needDef);
        return Some(Definition(n, sym.value));
      }
      forall i: nat ensures !Defines(d, s, needDef, i) {
        if Defines(d, s, needDef, i) { OfferUnique(d, s, sym, Some(i)); }
      }
    }
    return None;
  }

  /** The search has one answer, and appending DSOs to the scope does not change one that was found. */
  lemma DefinitionUnique(scope: seq<Dso>, more: seq<Dso>, s: Name, needDef: bool, r1: Option<Definition>, r2: Option<Definition>)
    requires forall k :: 0 <= k < |scope + more| ==> WellFormed((scope + more)[k])
    requires forall k :: 0 <= k < |scope| ==> WellFormed(scope[k])
    requires IsFirstDefinition(scope, s, needDef, r1) && IsFirstDefinition(scope + more, s, needDef, r2)
    ensures r1.Some? || more == [] ==> r1 == r2
  {
    assert forall k :: 0 <= k < |scope| ==> (scope + more)[k] == scope[k];
    if r1.Some? {
      assert Defines((scope + more)[r1.value.dso], s, needDef, r1.value.sym);
      if r2.Some? && r2.value.dso == r1.value.dso {
        OfferUnique(scope[r1.value.dso], s, Some(r1.value.sym), Some(r2.value.sym));
      }
    }
  }
}
