/** What is loaded, and the order in which files, symbols and TLS modules come in. */
module LoadOrder {
  import opened Basics
  import opened Lists
  import opened LazyLinks

  datatype File = File(needed: seq<nat>, hasTls: bool, bindNow: bool)

  /** The files of the libraries behind the program. */
  ghost function FilesOf(c: seq<Id>, file: map<Id, nat>): set<nat> {
    set i | 1 <= i < |c| && c[i] in file :: file[c[i]]
  }

  /** The libraries of c are still what they were. */
  ghost predicate SameFiles(c: seq<Id>, file: map<Id, nat>, file': map<Id, nat>) {
    forall d :: d in c && d in file ==> d in file' && file'[d] == file[d]
  }

  // ---------------------------------------------------------------------------------------------
  // What a call brings in, and in which order
  // ---------------------------------------------------------------------------------------------

  /** The libraries, what they are, and those with a TLS module. */
  datatype Stock = Stock(chain: seq<Id>, file: map<Id, nat>, info: map<Id, File>, tls: seq<Id>)

  /** The files of the libraries behind the program, in the order of the chain. */
  ghost function FileSeq(c: seq<Id>, file: map<Id, nat>): seq<nat> {
    if |c| <= 1 then []
    else
      var d := c[|c| - 1];
      FileSeq(c[..|c| - 1], file) + if d in file then [file[d]] else []
  }

  /** The libraries with TLS, in the order of the chain. */
  ghost function TlsOf(c: seq<Id>, info: map<Id, File>): seq<Id> {
    if c == [] then []
    else
      var d := c[|c| - 1];
      TlsOf(c[..|c| - 1], info) + if d in info && info[d].hasTls then [d] else []
  }

  /** What the libraries of c need, one after the other. */
  ghost function NeededBy(c: seq<Id>, info: map<Id, File>): seq<nat> {
    if c == [] then []
    else
      var d := c[|c| - 1];
      NeededBy(c[..|c| - 1], info) + if d in info then info[d].needed else []
  }

  ghost predicate SameInfo(c: seq<Id>, info: map<Id, File>, info': map<Id, File>) {
    forall d :: d in c ==> d in info && d in info' && info'[d] == info[d]
  }

  ghost predicate AllFiled(c: seq<Id>, file: map<Id, nat>) {
    forall d :: d in c ==> d in file
  }

  /** The wanted files were brought in: each that was not there yet, in turn, and their TLS modules in the same order. */
  ghost predicate Brought(a: Stock, b: Stock, wanted: seq<nat>) {
    && a.chain != [] && a.chain <= b.chain && AllFiled(a.chain, a.file) && AllFiled(b.chain, b.file)
    && SameInfo(a.chain, a.info, b.info) && SameInfo(b.chain, b.info, b.info)
    && FileSeq(b.chain, b.file) == Joined(FileSeq(a.chain, a.file), wanted)
    && b.tls == a.tls + TlsOf(b.chain[|a.chain|..], b.info)
  }

  lemma {:induction false} TlsOfConcat(a: seq<Id>, b: seq<Id>, info: map<Id, File>)
    ensures TlsOf(a + b, info) == TlsOf(a, info) + TlsOf(b, info)
  {
    if b == [] {
      assert a + b == a;
    } else {
      TlsOfConcat(a, b[..|b| - 1], info);
      assert (a + b)[..|a + b| - 1] == a + b[..|b| - 1];
    }
  }

  lemma {:induction false} TlsOfSame(c: seq<Id>, info: map<Id, File>, info': map<Id, File>)
    requires SameInfo(c, info, info')
    ensures TlsOf(c, info') == TlsOf(c, info)
  {
    if c != [] {
      FrontSame(c, info, info');
      TlsOfSame(c[..|c| - 1], info, info');
    }
  }

  lemma FrontSame(c: seq<Id>, info: map<Id, File>, info': map<Id, File>)
    requires c != [] && SameInfo(c, info, info')
    ensures SameInfo(c[..|c| - 1], info, info') && c[|c| - 1] in c
  {
  }

  lemma {:induction false} NeededBySame(c: seq<Id>, info: map<Id, File>, info': map<Id, File>)
    requires SameInfo(c, info, info')
    ensures NeededBy(c, info') == NeededBy(c, info)
  {
    if c != [] {
      FrontSame(c, info, info');
      NeededBySame(c[..|c| - 1], info, info');
    }
  }

  lemma NeededByGrows(c: seq<Id>, info: map<Id, File>, d: Id)
    requires d in info
    ensures NeededBy(c + [d], info) == NeededBy(c, info) + info[d].needed
  {
    assert (c + [d])[..|c|] == c;
  }

  lemma BroughtNothing(a: Stock)
    requires a.chain != [] && AllFiled(a.chain, a.file) && SameInfo(a.chain, a.info, a.info)
    ensures Brought(a, a, [])
  {
    assert a.chain[|a.chain|..] == [] && a.tls + [] == a.tls;
  }

  lemma TlsTogether(n: nat, b: Stock, c: Stock)
    requires n <= |b.chain| && b.chain <= c.chain && SameInfo(b.chain, b.info, c.info)
    ensures TlsOf(c.chain[n..], c.info) == TlsOf(b.chain[n..], b.info) + TlsOf(c.chain[|b.chain|..], c.info)
  {
    var m := |b.chain|;
    assert c.chain[n..] == b.chain[n..] + c.chain[m..];
    TlsOfConcat(b.chain[n..], c.chain[m..], c.info);
    assert SameInfo(b.chain[n..], b.info, c.info);
    TlsOfSame(b.chain[n..], b.info, c.info);
  }

  lemma SameInfoTogether(c: seq<Id>, c': seq<Id>, info: map<Id, File>, info1: map<Id, File>, info2: map<Id, File>)
    requires c <= c' && SameInfo(c, info, info1) && SameInfo(c', info1, info2)
    ensures SameInfo(c, info, info2)
  {
    assert forall d :: d in c ==> d in c';
  }

  lemma BroughtTogether(a: Stock, b: Stock, c: Stock, v: seq<nat>, w: seq<nat>)
    requires Brought(a, b, v) && Brought(b, c, w)
    ensures Brought(a, c, v + w)
  {
    hide Joined, FileSeq, TlsOf, SameInfo, AllFiled;
    JoinedConcat(FileSeq(a.chain, a.file), v, w);
    TlsTogether(|a.chain|, b, c);
    SameInfoTogether(a.chain, b.chain, a.info, b.info, c.info);
    TlsAdds(a, b, c);
  }

  lemma TlsAdds(a: Stock, b: Stock, c: Stock)
    requires |a.chain| <= |b.chain| <= |c.chain|
    requires b.tls == a.tls + TlsOf(b.chain[|a.chain|..], b.info) && c.tls == b.tls + TlsOf(c.chain[|b.chain|..], c.info)
    requires TlsOf(c.chain[|a.chain|..], c.info)
          == TlsOf(b.chain[|a.chain|..], b.info) + TlsOf(c.chain[|b.chain|..], c.info)
    ensures c.tls == a.tls + TlsOf(c.chain[|a.chain|..], c.info)
  {
    hide TlsOf;
  }

  lemma {:induction false} FileSeqSame(c: seq<Id>, file: map<Id, nat>, file': map<Id, nat>)
    requires AllFiled(c, file) && SameFiles(c, file, file')
    ensures FileSeq(c, file') == FileSeq(c, file)
  {
    if |c| > 1 {
      assert c[|c| - 1] in c && forall d :: d in c[..|c| - 1] ==> d in c;
      FileSeqSame(c[..|c| - 1], file, file');
    }
  }

  lemma {:induction false} InFileSeq(c: seq<Id>, file: map<Id, nat>, name: nat)
    requires AllFiled(c, file)
    ensures name in FileSeq(c, file) <==> name in FilesOf(c, file)
  {
    if |c| > 1 {
      var front, d := c[..|c| - 1], c[|c| - 1];
      assert d in c && forall x :: x in front ==> x in c;
      InFileSeq(front, file, name);
      FilesFront(c, file);
    }
  }

  lemma FilesFront(c: seq<Id>, file: map<Id, nat>)
    requires |c| > 1 && c[|c| - 1] in file
    ensures FilesOf(c, file) == FilesOf(c[..|c| - 1], file) + {file[c[|c| - 1]]}
  {
    var front := c[..|c| - 1];
    forall x | x in FilesOf(front, file) ensures x in FilesOf(c, file) {
      var i :| 1 <= i < |front| && front[i] in file && file[front[i]] == x;
      assert c[i] in file && file[c[i]] == x;
    }
    forall x | x in FilesOf(c, file) ensures x in FilesOf(front, file) + {file[c[|c| - 1]]} {
      var i :| 1 <= i < |c| && c[i] in file && file[c[i]] == x;
      if i < |c| - 1 { assert front[i] in file && file[front[i]] == x; }
    }
    assert c[|c| - 1] in file;
  }

  /** A file that was not there is brought in as a new library. */
  lemma BroughtNew(a: Stock, p: Id, name: nat, i: File)
    requires a.chain != [] && p !in a.chain && AllFiled(a.chain, a.file) && SameInfo(a.chain, a.info, a.info)
    requires name !in FilesOf(a.chain, a.file)
    ensures Brought(a, Stock(a.chain + [p], a.file[p := name], a.info[p := i], if i.hasTls then a.tls + [p] else a.tls), [name])
  {
    var c, file, info := a.chain + [p], a.file[p := name], a.info[p := i];
    InFileSeq(a.chain, a.file, name);
    FileSeqSame(a.chain, a.file, file);
    assert c[..|c| - 1] == a.chain && c[|a.chain|..] == [p] && [p][..0] == [];
    assert TlsOf([p], info) == if i.hasTls then [p] else [];
    assert [name][..0] == [];
    assert Joined(FileSeq(a.chain, a.file), [name]) == FileSeq(a.chain, a.file) + [name];
  }

  /** A file that is there brings nothing. */
  lemma BroughtOld(a: Stock, name: nat)
    requires a.chain != [] && AllFiled(a.chain, a.file) && SameInfo(a.chain, a.info, a.info) && name in FilesOf(a.chain, a.file)
    ensures Brought(a, a, [name])
  {
    InFileSeq(a.chain, a.file, name);
    BroughtNothing(a);
    assert [name][..0] == [];
    assert Joined(FileSeq(a.chain, a.file), [name]) == FileSeq(a.chain, a.file);
  }

  /** The libraries of list are the files that are needed, in order. */
  ghost predicate Names(list: seq<Id>, file: map<Id, nat>, needed: seq<nat>) {
    |list| == |needed| && forall i :: 0 <= i < |list| ==> list[i] in file && file[list[i]] == needed[i]
  }

  /** The direct dependencies among those that are recorded of d: as many as its file needs. */
  function Direct(deps: map<Id, seq<Id>>, info: map<Id, File>, d: Id): seq<Id> {
    if d !in deps then []
    else if d in info && |info[d].needed| < |deps[d]| then deps[d][..|info[d].needed|]
    else deps[d]
  }

  /** The direct dependencies of the members of list, one after the other. */
  ghost function AllDirect(deps: map<Id, seq<Id>>, info: map<Id, File>, list: seq<Id>): seq<Id> {
    if list == [] then []
    else AllDirect(deps, info, list[..|list| - 1]) + Direct(deps, info, list[|list| - 1])
  }

  lemma AllDirectGrows(deps: map<Id, seq<Id>>, info: map<Id, File>, list: seq<Id>, k: nat)
    requires k < |list|
    ensures AllDirect(deps, info, list[..k + 1]) == AllDirect(deps, info, list[..k]) + Direct(deps, info, list[k])
  {
    assert list[..k + 1][..k] == list[..k];
  }

  /** Breadth first: the direct dependencies, then what they need that is not in the list yet, and so on along the list. */
  ghost predicate IsBreadthFirst(deps: map<Id, seq<Id>>, info: map<Id, File>, p: Id, list: seq<Id>) {
    list == Joined(Direct(deps, info, p), AllDirect(deps, info, list))
  }

  /** Only the list of p became longer. */
  lemma {:induction false} AllDirectStays(deps: map<Id, seq<Id>>, info: map<Id, File>, p: Id, more: seq<Id>, list: seq<Id>)
    requires p in deps && p in info && |deps[p]| == |info[p].needed| && deps[p] <= more
    ensures AllDirect(deps[p := more], info, list) == AllDirect(deps, info, list)
    ensures Direct(deps[p := more], info, p) == Direct(deps, info, p)
  {
    if list != [] {
      AllDirectStays(deps, info, p, more, list[..|list| - 1]);
    }
  }

  /** The recorded direct dependencies of d are the files that it needs. */
  ghost predicate DirectNamed(deps: map<Id, seq<Id>>, file: map<Id, nat>, info: map<Id, File>, d: Id) {
    d in deps && d in info && Names(Direct(deps, info, d), file, info[d].needed)
  }

  /**
   What a call that opens p has brought in: the file, then for each new library in turn what it needs; each new library
   has what it needs recorded in order, and a new p the breadth-first list of everything it needs.
   */
  ghost predicate LoadedInOrder(a: Stock, b: Stock, name: nat, deps: map<Id, seq<Id>>, p: Id) {
    && a.chain <= b.chain && Brought(a, b, [name] + NeededBy(b.chain[|a.chain|..], b.info))
    && (forall j :: |a.chain| <= j < |b.chain| ==> DirectNamed(deps, b.file, b.info, b.chain[j]))
    && (p !in a.chain ==> IsBreadthFirst(deps, b.info, p, if p in deps then deps[p] else []))
  }

  // ---------------------------------------------------------------------------------------------
  // The walk of load_deps
  // ---------------------------------------------------------------------------------------------

  /** From the n-th library up to the k-th, each has what it needs recorded, and that was brought in for one after the other. */
  ghost predicate Walked(a: Stock, b: Stock, deps: map<Id, seq<Id>>, n: nat, k: nat) {
    && n <= k <= |b.chain| && Brought(a, b, NeededBy(b.chain[n..k], b.info))
    && forall j :: n <= j < k ==>
         b.chain[j] in deps && b.chain[j] in b.info && Names(deps[b.chain[j]], b.file, b.info[b.chain[j]].needed)
  }

  ghost predicate NotYetIn(deps: map<Id, seq<Id>>, c: seq<Id>, k: nat) {
    forall j :: k <= j < |c| ==> c[j] !in deps
  }

  lemma WalkBegins(a: Stock, deps: map<Id, seq<Id>>, n: nat)
    requires a.chain != [] && AllFiled(a.chain, a.file) && SameInfo(a.chain, a.info, a.info) && Distinct(a.chain)
    requires n == |a.chain| - 1
    ensures Walked(a, a, deps, n, n)
  {
    BroughtNothing(a);
    assert a.chain[n..n] == [];
  }

  lemma {:induction false} NamesStay(list: seq<Id>, file: map<Id, nat>, file': map<Id, nat>, needed: seq<nat>, c: seq<Id>)
    requires Names(list, file, needed) && SameFiles(c, file, file') && forall d :: d in list ==> d in c
    ensures Names(list, file', needed)
  {
    forall i | 0 <= i < |list| ensures list[i] in file' && file'[list[i]] == needed[i] {
      assert list[i] in list;
    }
  }

  lemma WalkAtBegins(alone: bool, a: Stock, deps: map<Id, seq<Id>>, n: nat)
    requires a.chain != [] && AllFiled(a.chain, a.file) && SameInfo(a.chain, a.info, a.info) && Distinct(a.chain)
    requires n < |a.chain| && a.chain[n] !in deps && (alone ==> a.chain[|a.chain| - 1] == a.chain[n])
    ensures WalkAt(alone, a, a, deps, n, n)
  {
    if alone {
      WalkBegins(a, deps, n);
    }
  }

  lemma NewHasNoDeps(a: Stock, deps: map<Id, seq<Id>>, p: Id)
    requires DepsWithin(deps, a.chain)
    ensures p !in a.chain ==> p !in deps
  {
  }

  ghost predicate DepsWithin(deps: map<Id, seq<Id>>, c: seq<Id>) {
    forall d :: d in deps ==> d in c && forall x :: x in deps[d] ==> x in c
  }

  /** One library more was given what it needs. */
  ghost predicate OneMore(b: Stock, b': Stock, deps: map<Id, seq<Id>>, deps': map<Id, seq<Id>>, q: Id) {
    && q in b.info && q !in deps && q in deps' && deps' == deps[q := deps'[q]]
    && Brought(b, b', b.info[q].needed) && Names(deps'[q], b'.file, b.info[q].needed)
    && SameFiles(b.chain, b.file, b'.file)
  }

  lemma WalkOn(a: Stock, b: Stock, b': Stock, deps: map<Id, seq<Id>>, deps': map<Id, seq<Id>>, n: nat, k: nat)
    requires Walked(a, b, deps, n, k) && k < |b.chain| && DepsWithin(deps, b.chain)
    requires OneMore(b, b', deps, deps', b.chain[k])
    ensures Walked(a, b', deps', n, k + 1)
  {
    var q, w := b.chain[k], NeededBy(b.chain[n..k], b.info);
    hide Brought, NeededBy, Names, SameInfo, SameFiles, DepsWithin;
    WalkBrings(a, b, b', n, k);
    forall j | n <= j < k + 1
      ensures b'.chain[j] in deps' && b'.chain[j] in b'.info && Names(deps'[b'.chain[j]], b'.file, b'.info[b'.chain[j]].needed)
    {
      ChainStays(b, b', j);
      if j < k {
        DepsOf(deps, b.chain, b.chain[j]);
        NamesStay(deps[b.chain[j]], b.file, b'.file, b.info[b.chain[j]].needed, b.chain);
        EarlierStays(b.chain, deps, deps', j, k);
      }
    }
  }

  lemma DepsOf(deps: map<Id, seq<Id>>, c: seq<Id>, d: Id)
    requires DepsWithin(deps, c) && d in deps
    ensures forall x :: x in deps[d] ==> x in c
  {
  }

  lemma EarlierStays(c: seq<Id>, deps: map<Id, seq<Id>>, deps': map<Id, seq<Id>>, j: nat, k: nat)
    requires j < k < |c| && c[j] in deps && c[k] !in deps && c[k] in deps' && deps' == deps[c[k] := deps'[c[k]]]
    ensures c[j] in deps' && deps'[c[j]] == deps[c[j]]
  {
  }

  lemma ChainStays(b: Stock, b': Stock, j: nat)
    requires j < |b.chain| && b.chain <= b'.chain && SameInfo(b.chain, b.info, b'.info)
    ensures b'.chain[j] == b.chain[j] && b.chain[j] in b.info && b.chain[j] in b'.info
    ensures b'.info[b.chain[j]] == b.info[b.chain[j]]
  {
    assert b.chain[j] in b.chain;
  }

  lemma WalkBrings(a: Stock, b: Stock, b': Stock, n: nat, k: nat)
    requires n <= k < |b.chain| && Brought(a, b, NeededBy(b.chain[n..k], b.info)) && b.chain[k] in b.info
    requires Brought(b, b', b.info[b.chain[k]].needed)
    ensures Brought(a, b', NeededBy(b'.chain[n..k + 1], b'.info)) && b.chain <= b'.chain && SameInfo(b.chain, b.info, b'.info)
  {
    hide Brought, NeededBy, SameInfo;
    var q := b.chain[k];
    BroughtTogether(a, b, b', NeededBy(b.chain[n..k], b.info), b.info[q].needed);
    BroughtParts(b, b', b.info[q].needed);
    ChainStays(b, b', k);
    SliceSame(b.chain, b.info, b'.info, n, k);
    assert b'.chain[n..k + 1] == b.chain[n..k] + [q];
    NeededBySame(b.chain[n..k], b.info, b'.info);
    NeededByGrows(b.chain[n..k], b'.info, q);
  }

  lemma BroughtParts(a: Stock, b: Stock, wanted: seq<nat>)
    requires Brought(a, b, wanted)
    ensures a.chain <= b.chain && SameInfo(a.chain, a.info, b.info)
  {
  }

  lemma SliceSame(c: seq<Id>, info: map<Id, File>, info': map<Id, File>, n: nat, k: nat)
    requires SameInfo(c, info, info') && n <= k <= |c|
    ensures SameInfo(c[n..k], info, info')
  {
  }

  /** Where a walk stands that began at the last library, and where nothing behind has been given what it needs. */
  ghost predicate WalkAt(alone: bool, a: Stock, b: Stock, deps: map<Id, seq<Id>>, n: nat, k: nat) {
    alone ==> n == |a.chain| - 1 && Walked(a, b, deps, n, k) && NotYetIn(deps, b.chain, k)
  }

  lemma NotInFront(c: seq<Id>, c': seq<Id>, j: nat)
    requires c <= c' && Distinct(c') && |c| <= j < |c'|
    ensures c'[j] !in c
  {
    forall i | 0 <= i < |c| ensures c[i] != c'[j] {
      assert c'[i] == c[i];
    }
  }

  lemma WalkAtEnds(alone: bool, a: Stock, b: Stock, deps: map<Id, seq<Id>>, n: nat, k: nat)
    requires WalkAt(alone, a, b, deps, n, k)
    ensures alone ==> n == |a.chain| - 1 && Walked(a, b, deps, n, k)
  {
  }

  lemma WalkAtOn(alone: bool, a: Stock, b: Stock, b': Stock, deps: map<Id, seq<Id>>, deps': map<Id, seq<Id>>, n: nat, k: nat)
    requires WalkAt(alone, a, b, deps, n, k) && k < |b.chain| && DepsWithin(deps, b.chain) && Distinct(b'.chain)
    requires b.chain[k] !in deps ==> OneMore(b, b', deps, deps', b.chain[k])
    ensures WalkAt(alone, a, b', deps', n, k + 1)
  {
    if alone {
      assert b.chain[k] !in deps;
      WalkOn(a, b, b', deps, deps', n, k);
      hide Walked, Names;
      forall j | k + 1 <= j < |b'.chain| ensures b'.chain[j] !in deps' {
        assert b'.chain[j] != b'.chain[k];
        if j < |b.chain| {
          assert b'.chain[j] == b.chain[j];
        } else {
          NotInFront(b.chain, b'.chain, j);
        }
      }
    }
  }

  // ---------------------------------------------------------------------------------------------
  // Opening a library
  // ---------------------------------------------------------------------------------------------

  /** The libraries from the n-th on, of which p is the first, have what they need; p has the list of all it needs. */
  ghost predicate Opened(a: Stock, b: Stock, deps: map<Id, seq<Id>>, p: Id, n: nat) {
    && n <= |b.chain| && Brought(a, b, NeededBy(b.chain[n..], b.info))
    && (forall j :: n <= j < |b.chain| ==> DirectNamed(deps, b.file, b.info, b.chain[j]))
    && (n < |a.chain| ==> p in deps && IsBreadthFirst(deps, b.info, p, deps[p]))
  }

  lemma NothingOpened(a: Stock, deps: map<Id, seq<Id>>, p: Id, n: nat)
    requires a.chain != [] && AllFiled(a.chain, a.file) && SameInfo(a.chain, a.info, a.info) && n == |a.chain|
    ensures Opened(a, a, deps, p, n)
  {
    BroughtNothing(a);
    assert a.chain[n..] == [];
  }

  lemma OpenedAll(a: Stock, b: Stock, deps: map<Id, seq<Id>>, deps': map<Id, seq<Id>>, p: Id, n: nat)
    requires n == |a.chain| - 1 && n < |b.chain| && b.chain[n] == p && Walked(a, b, deps, n, |b.chain|)
    requires p in deps' && deps' == deps[p := deps'[p]] && IsBreadthFirst(deps, b.info, p, deps'[p])
    ensures Opened(a, b, deps', p, n)
  {
    assert b.chain[n..|b.chain|] == b.chain[n..];
    hide Joined, AllDirect, Brought, NeededBy, Distinct, Names, Direct, IsBreadthFirst;
    NamesLength(deps[p], b.file, b.info[p].needed);
    ListStays(deps, deps', b.info, p);
    forall j | n <= j < |b.chain| ensures DirectNamed(deps', b.file, b.info, b.chain[j]) {
      NamesLength(deps[b.chain[j]], b.file, b.info[b.chain[j]].needed);
      DirectStays(deps, deps', b.info, p, b.chain[j]);
    }
  }

  lemma ListStays(deps: map<Id, seq<Id>>, deps': map<Id, seq<Id>>, info: map<Id, File>, p: Id)
    requires p in deps && p in info && |deps[p]| == |info[p].needed|
    requires p in deps' && deps' == deps[p := deps'[p]] && IsBreadthFirst(deps, info, p, deps'[p])
    ensures deps[p] <= deps'[p] && IsBreadthFirst(deps', info, p, deps'[p])
  {
    var list := deps'[p];
    hide Joined, AllDirect;
    assert Direct(deps, info, p) == deps[p];
    JoinedMeans(deps[p], AllDirect(deps, info, list));
    AllDirectStays(deps, info, p, list, list);
  }

  lemma DirectStays(deps: map<Id, seq<Id>>, deps': map<Id, seq<Id>>, info: map<Id, File>, p: Id, d: Id)
    requires p in deps && p in deps' && deps' == deps[p := deps'[p]] && deps[p] <= deps'[p]
    requires d in deps && d in info && p in info && |deps[d]| == |info[d].needed| && |deps[p]| == |info[p].needed|
    ensures d in deps' && Direct(deps', info, d) == deps[d]
  {
  }

  lemma NamesLength(list: seq<Id>, file: map<Id, nat>, needed: seq<nat>)
    requires Names(list, file, needed)
    ensures |list| == |needed|
  {
  }

  lemma OpenedIsLoaded(a: Stock, b: Stock, c: Stock, name: nat, deps: map<Id, seq<Id>>, p: Id)
    requires Brought(a, b, [name]) && Opened(b, c, deps, p, |a.chain|) && (p !in a.chain ==> |a.chain| < |b.chain|)
    ensures LoadedInOrder(a, c, name, deps, p)
  {
    BroughtTogether(a, b, c, [name], NeededBy(c.chain[|a.chain|..], c.info));
    hide Brought, NeededBy, DirectNamed, IsBreadthFirst;
  }
}
