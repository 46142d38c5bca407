/**
 dlopen as a transaction on the linker's chains. Every step that can fail may fail at any point;
 a failure rolls the chains and the TLS bookkeeping back. DSOs are numbered as they are count;
 each link field is a map, in which a null link is absent.
 */
module Dlopen {
  import opened Basics
  import opened Lists
  import opened LazyLinks
  import opened LoadOrder

  /** The library files that can be mapped, by identity (device and inode). */
  type Disk = map<nat, File>

  /** A call: the file and the mode, and which libraries the global scope then leaves something unresolved in. */
  datatype Request = Request(name: nat, lazy: bool, global: bool, noload: bool, shuttingDown: bool, unresolved: set<Id>)

  /** Back links. */
  ghost predicate IsBackList(links: Links, s: seq<Id>) {
    forall i :: 0 <= i < |s| ==> Follow(links, s[i]) == At(s, i - 1)
  }

  ghost predicate Within(s: seq<Id>, c: seq<Id>) {
    forall d :: d in s ==> d in c
  }

  /** Only members of s have a link. */
  ghost predicate LinksOnlyIn(links: Links, s: seq<Id>) {
    forall d :: d in links ==> d in s
  }

  lemma AppendLink(links: Links, s: seq<Id>, p: Id)
    requires IsList(links, s) && s != [] && p !in s && p !in links
    ensures IsList(links[s[|s| - 1] := p], s + [p])
    ensures LinksOnlyIn(links, s) ==> LinksOnlyIn(links[s[|s| - 1] := p], s + [p])
  {
    var s', links' := s + [p], links[s[|s| - 1] := p];
    forall i | 0 <= i < |s'| ensures Follow(links', s'[i]) == At(s', i + 1) {
      if i < |s| - 1 {
        assert s[i] != s[|s| - 1] && Follow(links, s[i]) == At(s, i + 1);
      }
    }
  }

  lemma AppendBackLink(links: Links, s: seq<Id>, p: Id)
    requires IsBackList(links, s) && s != [] && p !in s
    ensures IsBackList(links[p := s[|s| - 1]], s + [p])
  {
  }

  /** The front of a list, once the link of its last member is cleared, is a list. */
  lemma CutLink(links: Links, links': Links, s: seq<Id>, n: nat)
    requires IsList(links, s) && 0 < n <= |s|
    requires s[n - 1] !in links' && forall i :: 0 <= i < n - 1 ==> Follow(links', s[i]) == Follow(links, s[i])
    ensures IsList(links', s[..n])
  {
    forall i | 0 <= i < n ensures Follow(links', s[..n][i]) == At(s[..n], i + 1) {
      if i < n - 1 { assert Follow(links, s[i]) == At(s, i + 1); }
    }
  }

  ghost predicate KeysBelow(links: Links, bound: nat) {
    forall d :: d in links ==> d < bound
  }

  lemma KeysGrow(links: Links, bound: nat, bound': nat, d: Id, p: Id)
    requires KeysBelow(links, bound) && bound <= bound' && d < bound'
    ensures KeysBelow(links[d := p], bound') && KeysBelow(links, bound')
  {
  }

  lemma WithinGrows(s: seq<Id>, c: seq<Id>, p: Id)
    requires Within(s, c)
    ensures Within(s, c + [p]) && Within(s + [p], c + [p])
  {
  }

  ghost predicate Known(c: seq<Id>, bound: nat, file: map<Id, nat>, info: map<Id, File>) {
    forall d :: d in c ==> d < bound && d in file && d in info
  }

  lemma KnownGrows(c: seq<Id>, bound: nat, file: map<Id, nat>, info: map<Id, File>, name: nat, i: File)
    requires Known(c, bound, file, info)
    ensures bound !in c && Known(c + [bound], bound + 1, file[bound := name], info[bound := i])
    ensures c != [] ==> c[|c| - 1] < bound
  {
    if c != [] { assert c[|c| - 1] in c; }
  }

  lemma NotYet(s: seq<Id>, c: seq<Id>, links: Links, p: Id)
    requires Within(s, c) && p !in c && KeysBelow(links, p)
    ensures p !in s && p !in links
  {
  }

  lemma LastBelow(s: seq<Id>, c: seq<Id>, bound: nat, file: map<Id, nat>, info: map<Id, File>)
    requires s != [] && Within(s, c) && Known(c, bound, file, info)
    ensures s[|s| - 1] < bound
  {
    assert s[|s| - 1] in s;
  }

  lemma AddWithin(s: seq<Id>, c: seq<Id>, p: Id)
    requires Within(s, c) && p in c
    ensures Within(s + [p], c)
  {
  }

  lemma AloneIsList(links: Links, p: Id)
    requires p !in links
    ensures IsList(links, [] + [p])
  {
  }

  lemma ChainGrows(next: Links, prev: Links, c: seq<Id>, p: Id, file: map<Id, nat>, info: map<Id, File>, name: nat, i: File)
    requires c != [] && IsList(next, c) && IsBackList(prev, c) && Known(c, p, file, info) && KeysBelow(next, p)
    ensures var last := c[|c| - 1];
      && IsList(next[last := p], c + [p]) && IsBackList(prev[p := last], c + [p])
      && Known(c + [p], p + 1, file[p := name], info[p := i]) && KeysBelow(next[last := p], p + 1)
  {
    hide IsList, IsBackList, KeysBelow, Within, Known;
    KnownGrows(c, p, file, info, name, i);
    assert Within(c, c) by { WithinSelf(c); }
    NotYet(c, c, next, p);
    AppendLink(next, c, p);
    AppendBackLink(prev, c, p);
    KeysGrow(next, p, p + 1, c[|c| - 1], p);
  }

  lemma KnownInfo(c: seq<Id>, bound: nat, file: map<Id, nat>, info: map<Id, File>, p: Id)
    requires Known(c, bound, file, info) && p in c
    ensures p in info
  {
  }

  lemma WithinSelf(c: seq<Id>)
    ensures Within(c, c)
  {
  }

  lemma WithinGrow(s: seq<Id>, c: seq<Id>, c': seq<Id>)
    requires Within(s, c) && c <= c'
    ensures Within(s, c')
  {
  }

  lemma ChoppedNot(was: Links, s: seq<Id>, n: nat)
    requires 0 < n <= |s|
    ensures Chopped(was, was, s, n, n - 1)
  {
  }

  /** A new number is in no list of libraries and in no link. */
  lemma TlsKept(tlsNext: Links, tls: seq<Id>, c: seq<Id>, p: Id, file: map<Id, nat>, info: map<Id, File>)
    requires Within(tls, c) && KeysBelow(tlsNext, p) && Known(c, p, file, info)
    ensures Within(tls, c + [p]) && KeysBelow(tlsNext, p + 1) && p !in tls && p !in tlsNext
  {
  }

  lemma TlsGrows(tlsNext: Links, tls: seq<Id>, c: seq<Id>, bound: nat, file: map<Id, nat>, info: map<Id, File>, p: Id)
    requires IsList(tlsNext, tls) && KeysBelow(tlsNext, bound) && Within(tls, c) && Known(c, bound, file, info)
    requires p in c && p !in tls && p !in tlsNext
    ensures Within(tls + [p], c)
    ensures var links := if tls == [] then tlsNext else tlsNext[tls[|tls| - 1] := p];
      IsList(links, tls + [p]) && KeysBelow(links, bound)
  {
    hide IsList, IsBackList, KeysBelow, Within, Known;
    if tls == [] {
      AloneIsList(tlsNext, p);
    } else {
      AppendLink(tlsNext, tls, p);
      LastBelow(tls, c, bound, file, info);
      KeysGrow(tlsNext, bound, bound, tls[|tls| - 1], p);
    }
    AddWithin(tls, c, p);
  }

  lemma FilesGrow(c: seq<Id>, p: Id, file: map<Id, nat>, info: map<Id, File>, name: nat)
    requires c != [] && Known(c, p, file, info)
    ensures FilesOf(c + [p], file[p := name]) == FilesOf(c, file) + {name}
  {
    var c', file' := c + [p], file[p := name];
    forall i | 1 <= i < |c| ensures c'[i] == c[i] && c[i] in file' && file'[c[i]] == file[c[i]] {
      assert c[i] in c;
    }
    assert c'[|c|] == p && file'[p] == name;
    forall x | x in FilesOf(c, file) ensures x in FilesOf(c', file') {
      var i :| 1 <= i < |c| && c[i] in file && file[c[i]] == x;
      assert file'[c'[i]] == x;
    }
    forall x | x in FilesOf(c', file') ensures x in FilesOf(c, file) + {name} {
      var i :| 1 <= i < |c'| && c'[i] in file' && file'[c'[i]] == x;
    }
  }

  ghost function Missing(disk: Disk, c: seq<Id>, file: map<Id, nat>): set<nat> {
    disk.Keys - FilesOf(c, file)
  }

  lemma SameFilesNew(c: seq<Id>, file: map<Id, nat>, p: Id, name: nat)
    requires p !in c
    ensures SameFiles(c, file, file[p := name])
  {
  }

  lemma FilesStay(c: seq<Id>, file: map<Id, nat>, file': map<Id, nat>, d: Id)
    requires SameFiles(c, file, file') && d in c && d in file
    ensures d in file' && file'[d] == file[d]
  {
  }

  /** Libraries were only added, and every addition used up a file that was not loaded before. */
  ghost predicate Grown(disk: Disk, c: seq<Id>, file: map<Id, nat>, c': seq<Id>, file': map<Id, nat>) {
    c <= c' && SameFiles(c, file, file') && ((c == c' && file == file') || Missing(disk, c', file') < Missing(disk, c, file))
  }

  lemma GrownStep(disk: Disk, c: seq<Id>, file: map<Id, nat>, p: Id, file': map<Id, nat>, name: nat)
    requires name in disk && name !in FilesOf(c, file) && FilesOf(c + [p], file') == FilesOf(c, file) + {name}
    requires SameFiles(c, file, file')
    ensures Grown(disk, c, file, c + [p], file')
  {
    assert name in Missing(disk, c, file) && name !in Missing(disk, c + [p], file');
  }

  lemma GrownTransitive(disk: Disk, c0: seq<Id>, f0: map<Id, nat>, c1: seq<Id>, f1: map<Id, nat>, c2: seq<Id>, f2: map<Id, nat>)
    requires Grown(disk, c0, f0, c1, f1) && Grown(disk, c1, f1, c2, f2)
    ensures Grown(disk, c0, f0, c2, f2)
  {
  }

  lemma GrownNot(disk: Disk, c: seq<Id>, file: map<Id, nat>)
    ensures Grown(disk, c, file, c, file)
  {
  }

  lemma GrownPrefix(disk: Disk, c: seq<Id>, file: map<Id, nat>, c': seq<Id>, file': map<Id, nat>)
    requires Grown(disk, c, file, c', file')
    ensures SameFiles(c, file, file')
    ensures c <= c' && (c == c' ==> Missing(disk, c', file') <= Missing(disk, c, file))
    ensures c != c' ==> Missing(disk, c', file') < Missing(disk, c, file)
  {
  }

  /** Libraries with recorded dependencies are loaded, and so is what they depend on. */
  ghost predicate DepsIn(deps: map<Id, seq<Id>>, c: seq<Id>) {
    forall d :: d in deps ==> d in c && Within(deps[d], c)
  }

  lemma DepsStay(deps: map<Id, seq<Id>>, c: seq<Id>, p: Id)
    requires DepsIn(deps, c)
    ensures DepsIn(deps, c + [p])
  {
  }

  /** Libraries that are through dlopen: relocated, with dependencies among themselves. */
  ghost predicate Settled(c: seq<Id>, relocated: set<Id>, deps: map<Id, seq<Id>>) {
    forall d :: d in c ==> d in relocated && d in deps && Within(deps[d], c)
  }

  ghost predicate AllIn(ids: set<Id>, c: seq<Id>) {
    forall d :: d in ids ==> d in c
  }

  lemma AllInStays(ids: set<Id>, c: seq<Id>, p: Id)
    requires AllIn(ids, c)
    ensures AllIn(ids, c + [p]) && (p in c ==> AllIn(ids + {p}, c))
  {
  }

  lemma MarkKeeps(c: seq<Id>, relocated: set<Id>, deps: map<Id, seq<Id>>, p: Id)
    requires Settled(c, relocated, deps)
    ensures Settled(c, relocated + {p}, deps)
  {
  }

  lemma SettledAll(front: seq<Id>, c: seq<Id>, relocated: set<Id>, deps: map<Id, seq<Id>>)
    requires Settled(front, relocated, deps) && DepsIn(deps, c) && front <= c
    requires forall j :: |front| <= j < |c| ==> c[j] in relocated && c[j] in deps
    ensures Settled(c, relocated, deps)
  {
    forall d | d in c ensures d in relocated && d in deps {
      var j :| 0 <= j < |c| && c[j] == d;
      if j < |front| { assert front[j] in front; }
    }
  }

  /** The members of c from its n-th on, up to its k-th. */
  ghost function Members(c: seq<Id>, n: nat, k: nat): set<Id>
    requires k <= |c|
  {
    set j | n <= j < k :: c[j]
  }

  lemma MembersGrow(c: seq<Id>, n: nat, k: nat)
    requires n <= k < |c|
    ensures Members(c, n, k + 1) == Members(c, n, k) + {c[k]}
  {
  }

  lemma MembersApart(c: seq<Id>, n: nat)
    requires Distinct(c) && n <= |c|
    ensures forall d :: d in c <==> d in c[..n] || d in Members(c, n, |c|)
    ensures forall d :: d in c[..n] ==> d !in Members(c, n, |c|)
  {
    forall d | d in c ensures d in c[..n] || d in Members(c, n, |c|) {
      var j :| 0 <= j < |c| && c[j] == d;
      if j < n { assert c[..n][j] == d; }
    }
  }

  lemma NoMembers(c: seq<Id>, n: nat)
    requires n <= |c|
    ensures Members(c, n, n) == {}
  {
  }

  lemma EmptyList(links: Links)
    ensures IsList(links, [])
  {
  }

  /** Freeing all but the front of the chain. */
  lemma Sweep(next: Links, c: seq<Id>, n: nat, count: nat, file: map<Id, nat>, info: map<Id, File>,
              freed: set<Id>, relocated: set<Id>, deps: map<Id, seq<Id>>)
    requires IsList(next, c) && Known(c, count, file, info) && n <= |c| && NoLeak(c, freed, count)
    requires Settled(c[..n], relocated, deps) && DepsIn(deps, c) && AllIn(relocated, c)
    ensures var gone := Members(c, n, |c|);
      && NoLeak(c[..n], freed + gone, count) && Settled(c[..n], relocated - gone, deps - gone)
      && DepsIn(deps - gone, c[..n]) && AllIn(relocated - gone, c[..n])
  {
    assert Distinct(c);
    hide IsList, Distinct, Members;
    MembersApart(c, n);
    SweepFreed(c, n, count, file, info, freed, Members(c, n, |c|));
    hide Known, NoLeak;
  }

  lemma SweepFreed(c: seq<Id>, n: nat, count: nat, file: map<Id, nat>, info: map<Id, File>, freed: set<Id>, gone: set<Id>)
    requires Known(c, count, file, info) && n <= |c| && NoLeak(c, freed, count)
    requires forall d :: d in c <==> d in c[..n] || d in gone
    requires forall d :: d in c[..n] ==> d !in gone
    ensures NoLeak(c[..n], freed + gone, count)
  {
  }

  /** The chain cut behind its n-th member. */
  lemma CutChain(next: Links, prev: Links, c: seq<Id>, n: nat, count: nat, file: map<Id, nat>, info: map<Id, File>)
    requires 0 < n <= |c| && IsList(next, c) && IsBackList(prev, c) && Known(c, count, file, info) && KeysBelow(next, count)
    ensures var links := next - {c[n - 1]};
      IsList(links, c[..n]) && IsBackList(prev, c[..n]) && Known(c[..n], count, file, info) && KeysBelow(links, count)
  {
    hide IsList, IsBackList, Known, KeysBelow;
    CutTls(next, c, n, count);
    CutBack(prev, c, n);
    CutKnown(c, n, count, file, info);
  }

  lemma CutBack(prev: Links, c: seq<Id>, n: nat)
    requires n <= |c| && IsBackList(prev, c)
    ensures IsBackList(prev, c[..n])
  {
    forall i | 0 <= i < n ensures Follow(prev, c[..n][i]) == At(c[..n], i - 1) {
      assert Follow(prev, c[i]) == At(c, i - 1);
    }
  }

  lemma CutKnown(c: seq<Id>, n: nat, count: nat, file: map<Id, nat>, info: map<Id, File>)
    requires n <= |c| && Known(c, count, file, info)
    ensures Known(c[..n], count, file, info)
  {
    forall d | d in c[..n] ensures d < count && d in file && d in info {
      assert d in c;
    }
  }

  lemma CutTls(links: Links, s: seq<Id>, n: nat, count: nat)
    requires 0 < n <= |s| && IsList(links, s) && KeysBelow(links, count)
    ensures IsList(links - {s[n - 1]}, s[..n]) && KeysBelow(links - {s[n - 1]}, count)
  {
    CutLink(links, links - {s[n - 1]}, s, n);
  }

  /** Every library ever allocated is either in the chain or freed, not both. */
  ghost predicate NoLeak(c: seq<Id>, freed: set<Id>, count: nat) {
    (forall d: nat :: d < count ==> d in c || d in freed) && forall d :: d in freed ==> d < count && d !in c
  }

  lemma NewIsFresh(c: seq<Id>, relocated: set<Id>, p: Id)
    requires AllIn(relocated, c)
    ensures p !in c ==> p !in relocated
  {
  }

  lemma NewIsFreed(c: seq<Id>, bound: nat, file: map<Id, nat>, info: map<Id, File>, freed: set<Id>, count: nat)
    requires Known(c, bound, file, info) && NoLeak(c, freed, count)
    ensures forall d :: bound <= d < count ==> d in freed
  {
  }

  lemma NoLeakGrows(c: seq<Id>, freed: set<Id>, count: nat)
    requires NoLeak(c, freed, count)
    ensures NoLeak(c + [count], freed, count + 1)
  {
  }

  /** Every member of list is needed by p or by an earlier member. */
  predicate Drawn(deps: map<Id, seq<Id>>, p: Id, list: seq<Id>)
    requires p in deps
  {
    forall i :: 0 <= i < |list| ==>
      list[i] in deps[p] || exists j :: 0 <= j < i && list[j] in deps && list[i] in deps[list[j]]
  }

  lemma {:induction false} DrawnWithin(deps: map<Id, seq<Id>>, p: Id, list: seq<Id>, c: seq<Id>, n: nat)
    requires p in deps && Drawn(deps, p, list) && n <= |list|
    requires p in c && forall d :: d in c && d in deps ==> Within(deps[d], c)
    ensures Within(list[..n], c)
  {
    if n > 0 {
      DrawnWithin(deps, p, list, c, n - 1);
      if list[n - 1] !in deps[p] {
        var j :| 0 <= j < n - 1 && list[j] in deps && list[n - 1] in deps[list[j]];
        assert list[j] == list[..n - 1][j];
      }
    }
  }

  ghost function Unlisted(c: seq<Id>, list: seq<Id>): set<Id> {
    set d | d in c && d !in list
  }

  lemma JoinedHolds(s: seq<Id>, p: Id, list: seq<Id>)
    ensures var r := Joined(s, [p] + list); s <= r && p in r && Within(list, r)
  {
    var all := [p] + list;
    JoinedMeans(s, all);
    hide Joined;
    assert all[0] == p && p in all && forall d :: d in list ==> d in all;
  }

  lemma NoDirect(deps: map<Id, seq<Id>>, info: map<Id, File>)
    ensures AllDirect(deps, info, []) == []
  {
  }

  lemma DirectIn(deps: map<Id, seq<Id>>, info: map<Id, File>, d: Id, c: seq<Id>)
    requires DepsWithin(deps, c)
    ensures Within(Direct(deps, info, d), c)
    ensures forall x :: x in Direct(deps, info, d) ==> d in deps && x in deps[d]
  {
  }

  lemma DrawnDirect(deps: map<Id, seq<Id>>, info: map<Id, File>, p: Id, c: seq<Id>)
    requires p in deps && DepsWithin(deps, c)
    ensures Within(Direct(deps, info, p), c) && Drawn(deps, p, Direct(deps, info, p))
  {
    DirectIn(deps, info, p, c);
    hide Direct;
    forall i | 0 <= i < |Direct(deps, info, p)| ensures Direct(deps, info, p)[i] in deps[p] {
      assert Direct(deps, info, p)[i] in Direct(deps, info, p);
    }
  }

  /** The list with what its i-th member needs: it is drawn from the recorded dependencies, and longer or the same. */
  lemma ExtendOne(deps: map<Id, seq<Id>>, info: map<Id, File>, p: Id, c: seq<Id>, list: seq<Id>, i: nat)
    requires p in deps && DepsWithin(deps, c) && i < |list| && Within(list, c) && Drawn(deps, p, list)
    requires list == Joined(Direct(deps, info, p), AllDirect(deps, info, list[..i]))
    ensures var more := Joined(list, Direct(deps, info, list[i]));
      && |list| <= |more| && Within(more, c) && Drawn(deps, p, more)
      && more == Joined(Direct(deps, info, p), AllDirect(deps, info, more[..i + 1]))
      && (more == list || Unlisted(c, more) < Unlisted(c, list))
  {
    hide Direct, Joined, AllDirect, DepsWithin, Distinct, Drawn, Within;
    var ds := Direct(deps, info, list[i]);
    DirectIn(deps, info, list[i], c);
    JoinedMore(list, ds, c);
    ExtendEquation(Direct(deps, info, p), deps, info, list, i);
    DrawnMore(deps, p, list, Joined(list, ds), i);
  }

  lemma JoinedMore(list: seq<Id>, ds: seq<Id>, c: seq<Id>)
    requires Within(list, c) && Within(ds, c)
    ensures var more := Joined(list, ds);
      && list <= more && Within(more, c) && (forall k :: |list| <= k < |more| ==> more[k] in ds)
      && (more == list || Unlisted(c, more) < Unlisted(c, list))
  {
    JoinedMeans(list, ds);
    var more := Joined(list, ds);
    hide Joined, Distinct;
    if more != list {
      var x := more[|list|];
      assert x in more && x in Unlisted(c, list) && x !in Unlisted(c, more);
      assert Unlisted(c, more) <= Unlisted(c, list);
    }
  }

  lemma ExtendEquation(start: seq<Id>, deps: map<Id, seq<Id>>, info: map<Id, File>, list: seq<Id>, i: nat)
    requires i < |list| && list == Joined(start, AllDirect(deps, info, list[..i]))
    ensures var more := Joined(list, Direct(deps, info, list[i]));
      i < |more| && more == Joined(start, AllDirect(deps, info, more[..i + 1]))
  {
    var ds := Direct(deps, info, list[i]);
    JoinedMeans(list, ds);
    AllDirectGrows(deps, info, list, i);
    JoinedConcat(start, AllDirect(deps, info, list[..i]), ds);
    assert Joined(list, ds)[..i + 1] == list[..i + 1];
    hide Direct, Joined, AllDirect, Distinct;
  }

  lemma DrawnMore(deps: map<Id, seq<Id>>, p: Id, list: seq<Id>, more: seq<Id>, i: nat)
    requires p in deps && Drawn(deps, p, list) && list <= more && i < |list|
    requires forall k :: |list| <= k < |more| ==> list[i] in deps && more[k] in deps[list[i]]
    ensures Drawn(deps, p, more)
  {
    forall k | 0 <= k < |more| && more[k] !in deps[p]
      ensures exists j :: 0 <= j < k && more[j] in deps && more[k] in deps[more[j]]
    {
      if k < |list| {
        assert more[k] == list[k];
        var j :| 0 <= j < k && list[j] in deps && list[k] in deps[list[j]];
        assert more[j] == list[j];
      } else {
        assert more[i] == list[i];
      }
    }
  }

  lemma DrawnKeeps(deps: map<Id, seq<Id>>, p: Id, list: seq<Id>, c: seq<Id>, front: seq<Id>, relocated: set<Id>)
    requires p in deps && Drawn(deps, p, list) && DepsIn(deps, c) && Settled(front, relocated, deps)
    ensures DepsIn(deps[p := list], c) && Settled(front, relocated, deps[p := list])
  {
    DrawnWithin(deps, p, list, c, |list|);
    assert list[..|list|] == list;
    if p in front {
      DrawnWithin(deps, p, list, front, |list|);
    }
  }

  lemma RecordKeeps(deps: map<Id, seq<Id>>, p: Id, list: seq<Id>, c: seq<Id>, front: seq<Id>, relocated: set<Id>)
    requires DepsIn(deps, c) && Settled(front, relocated, deps) && p in c && p !in deps && Within(list, c)
    ensures DepsIn(deps[p := list], c) && Settled(front, relocated, deps[p := list])
  {
  }

  /** The test of add_syms: a member has a link or is the last one. */
  lemma MemberTest(links: Links, s: seq<Id>, p: Id)
    requires IsList(links, s) && LinksOnlyIn(links, s) && s != []
    ensures p in s <==> p in links || p == s[|s| - 1]
  {
    if p in s {
      var i :| 0 <= i < |s| && s[i] == p;
      assert Follow(links, s[i]) == At(s, i + 1);
    }
  }

  /** Some links of s are gone, from its member n - 1 up to its member k; the others are as in was. */
  ghost predicate Chopped(was: Links, links: Links, s: seq<Id>, n: nat, k: nat)
    requires 0 < n <= |s| && n - 1 <= k <= |s|
  {
    && (forall d :: d in links ==> d in was)
    && (forall i :: 0 <= i < |s| && (i < n - 1 || k <= i) ==> Follow(links, s[i]) == Follow(was, s[i]))
    && (forall i :: n - 1 <= i < k ==> s[i] !in links)
  }

  lemma ChopOne(was: Links, links: Links, s: seq<Id>, n: nat, k: nat)
    requires 0 < n <= |s| && n - 1 <= k < |s| && IsList(was, s) && Chopped(was, links, s, n, k)
    ensures Chopped(was, links - {s[k]}, s, n, k + 1) && Follow(links, s[k]) == At(s, k + 1)
  {
    var links' := links - {s[k]};
    forall i | 0 <= i < |s| && (i < n - 1 || k + 1 <= i) ensures Follow(links', s[i]) == Follow(was, s[i]) {
      assert s[i] != s[k] && Follow(links, s[i]) == Follow(was, s[i]);
    }
    forall i | n - 1 <= i < k + 1 ensures s[i] !in links' {
      if i < k { assert s[i] !in links; }
    }
  }

  lemma ChoppedIsList(was: Links, links: Links, s: seq<Id>, n: nat)
    requires 0 < n <= |s| && IsList(was, s) && LinksOnlyIn(was, s) && Chopped(was, links, s, n, |s|)
    ensures IsList(links, s[..n]) && LinksOnlyIn(links, s[..n])
  {
    CutLink(was, links, s, n);
    forall d | d in links ensures d in s[..n] {
      var i :| 0 <= i < |s| && s[i] == d;
      assert i < n - 1 && s[..n][i] == d;
    }
  }

  lemma NamesNone(file: map<Id, nat>, needed: seq<nat>)
    ensures Names([], file, needed[..0])
  {
  }

  lemma NamesGrow(list: seq<Id>, c: seq<Id>, file: map<Id, nat>, file': map<Id, nat>, needed: seq<nat>, i: nat, d: Id)
    requires i < |needed| && Names(list, file, needed[..i]) && Within(list, c) && SameFiles(c, file, file')
    requires d in file' && file'[d] == needed[i]
    ensures Names(list + [d], file', needed[..i + 1])
  {
    forall k | 0 <= k < |list| ensures list[k] in file' && file'[list[k]] == needed[k] {
      assert list[k] in list;
      FilesStay(c, file, file', list[k]);
    }
  }

  /** What dlopen remembers to roll back to, and the lists those pointers stood for. */
  datatype Snapshot = Snapshot(tail: Id, symsTail: Id, lazyHead: Ref, tlsTail: Ref, tlsCnt: int, tlsOffset: int, tlsAlign: int,
                               ghost chain: seq<Id>, ghost syms: seq<Id>, ghost tls: seq<Id>,
                               ghost lazyNext: Links, ghost trail: Trail)

  /** What was in the lists when o was taken still is, in front. */
  ghost predicate Extends(o: Snapshot, chain: seq<Id>, syms: seq<Id>, tls: seq<Id>) {
    && o.chain != [] && o.chain <= chain && o.tail == o.chain[|o.chain| - 1]
    && o.syms != [] && o.syms <= syms && o.symsTail == o.syms[|o.syms| - 1] && Within(o.syms, o.chain)
    && o.tls <= tls && o.tlsTail == At(o.tls, |o.tls| - 1) && o.tlsCnt == |o.tls| && Within(o.tls, o.chain)
  }

  /** The lazy chain of o, which holds libraries of o. */
  ghost predicate WasLazy(o: Snapshot) {
    Follows(o.lazyNext, o.lazyHead, o.trail) && Within(o.trail.s, o.chain)
  }

  lemma NothingPrepared(t: Trail, s: seq<Id>, keep: set<Id>)
    ensures PushAll(t, Only(s[..0], keep)) == t
  {
    assert s[..0] == [];
  }

  lemma PrepareMore(t: Trail, s: seq<Id>, keep: set<Id>, k: nat)
    requires k < |s|
    ensures PushAll(t, Only(s[..k + 1], keep))
         == var was := PushAll(t, Only(s[..k], keep)); if s[k] in keep then Push(was, s[k]) else was
  {
    OnlyGrows(s, keep, k);
    PushAllGrows(t, Only(s[..k], keep), s[k]);
  }

  lemma InList(s: seq<Id>, i: nat, c: seq<Id>)
    requires i < |s| && Within(s, c)
    ensures s[i] in c
  {
    assert s[i] in s;
  }

  /** What was relocated meanwhile was relocated while s was the chain of the global symbols. */
  ghost predicate RelocatedUnder(s: seq<Id>, before: set<Id>, relocated: set<Id>, under: map<Id, seq<Id>>) {
    before <= relocated && forall d :: d in relocated && d !in before ==> d in under && under[d] == s
  }

  lemma LinksKept(o: Snapshot, links: Links)
    requires WasLazy(o) && forall d :: d in o.chain ==> Follow(links, d) == Follow(o.lazyNext, d)
    ensures Follows(links, o.lazyHead, o.trail)
  {
    forall i | 0 <= i < |o.trail.s| ensures Follow(links, o.trail.s[i]) == Next(o.trail, i) {
      assert o.trail.s[i] in o.trail.s && Follow(o.lazyNext, o.trail.s[i]) == Next(o.trail, i);
    }
  }

  /** The libraries that are not relocated and do not bind at once. */
  ghost function Deferring(c: seq<Id>, relocated: set<Id>, info: map<Id, File>): set<Id> {
    set d | d in c && d !in relocated && d in info && !info[d].bindNow
  }

  /** The libraries that a call prepares, in order: if it is lazy and p is new, p and what p needs. */
  ghost function Prepared(p: Id, lazy: bool, deps: map<Id, seq<Id>>, c: seq<Id>, relocated: set<Id>, info: map<Id, File>): seq<Id>
    requires p in deps
  {
    if lazy && p !in relocated then Only([p] + deps[p], Deferring(c, relocated, info)) else []
  }

  /** What becomes of the lazy chain in a call that succeeds and prepares list. */
  ghost predicate LazyOutcome(t: Trail, list: seq<Id>, unresolved: set<Id>, t': Trail) {
    && t' == Redone(PushAll(t, list), unresolved)
    && (Distinct(list) ==> forall d :: d in t'.s <==> d in unresolved && (d in t.s || d in list))
    && (Distinct(list) && t.Ends() ==> t'.Ends())
    && (!Distinct(list) ==> forall d :: d in t.s ==> d !in t'.s)
  }

  lemma PreparedApart(p: Id, lazy: bool, deps: map<Id, seq<Id>>, c: seq<Id>, relocated: set<Id>, info: map<Id, File>, s: seq<Id>)
    requires p in deps && forall d :: d in s ==> d in relocated
    ensures Apart(Prepared(p, lazy, deps, c, relocated, info), s) && Within(Prepared(p, lazy, deps, c, relocated, info), c)
  {
    OnlyMembers([p] + deps[p], Deferring(c, relocated, info));
  }

  lemma OutcomeHolds(t: Trail, list: seq<Id>, unresolved: set<Id>, c: seq<Id>)
    requires Distinct(t.s) && t.back <= |t.s| && Apart(list, t.s) && Within(t.s, c) && Within(list, c)
    ensures LazyOutcome(t, list, unresolved, Redone(PushAll(t, list), unresolved))
    ensures Within(Redone(PushAll(t, list), unresolved).s, c)
  {
    WaitingAfterwards(t, list, unresolved);
    PushAllOk(t, list);
    RedoneMembers(PushAll(t, list), unresolved);
    PushMembers(t, list);
  }

  lemma ExtendsMore(o: Snapshot, chain: seq<Id>, syms: seq<Id>, tls: seq<Id>, p: Id)
    requires Extends(o, chain, syms, tls)
    ensures Extends(o, chain + [p], syms, tls)
  {
  }

  lemma ExtendsMoreTls(o: Snapshot, chain: seq<Id>, syms: seq<Id>, tls: seq<Id>, p: Id)
    requires Extends(o, chain, syms, tls)
    ensures Extends(o, chain, syms, tls + [p])
  {
  }

  lemma TwoLinked()
    ensures IsList(map[0 := 1], [0, 1]) && IsBackList(map[1 := 0], [0, 1]) && LinksOnlyIn(map[0 := 1], [0, 1])
    ensures KeysBelow(map[0 := 1], 2) && KeysBelow(map[], 2) && IsList(map[], []) && IsList(map[], [0])
    ensures Within([0, 1], [0, 1]) && Within([], [0, 1]) && Within([0], [0, 1])
    ensures At([], 0) == At([], -1) == Null && At([0], 0) == To(0)
  {
  }

  lemma TwoLoaded(file: map<Id, nat>, info: map<Id, File>)
    requires file.Keys == info.Keys == {0, 1}
    ensures Known([0, 1], 2, file, info) && NoLeak([0, 1], {}, 2) && AllIn({0, 1}, [0, 1])
    ensures DepsIn(map[0 := [1], 1 := []], [0, 1]) && Settled([0, 1], {0, 1}, map[0 := [1], 1 := []])
  {
  }

  class Linker {
    var next: Links
    var prev: Links
    var symsNext: Links
    var lazyNext: Links
    var tlsNext: Links
    var head: Id
    var tail: Id
    var symsTail: Id
    var lazyHead: Ref
    var tlsHead: Ref
    var tlsTail: Ref
    var tlsCnt: int
    var tlsOffset: int
    var tlsAlign: int
    var count: nat                // of libraries allocated so far
    var file: map<Id, nat>
    var info: map<Id, File>
    var deps: map<Id, seq<Id>>    // absent until load_direct_deps ran
    var relocated: set<Id>
    var freed: set<Id>
    ghost var chain: seq<Id>      // along next from head
    ghost var syms: seq<Id>       // along syms_next from head
    ghost var tls: seq<Id>        // along the TLS modules
    ghost var trail: Trail        // along lazy_next from lazy_head
    ghost var under: map<Id, seq<Id>>  // the global symbols' chain when a library was relocated

    ghost predicate ChainOk()
      reads this`next, this`prev, this`head, this`tail, this`chain, this`count, this`file, this`info
    {
      && chain != [] && head == chain[0] && tail == chain[|chain| - 1] && IsList(next, chain) && IsBackList(prev, chain)
      && Known(chain, count, file, info) && KeysBelow(next, count)
    }

    ghost predicate SymsOk()
      reads this`symsNext, this`head, this`symsTail, this`syms, this`chain
    {
      && syms != [] && head == syms[0] && symsTail == syms[|syms| - 1] && IsList(symsNext, syms)
      && LinksOnlyIn(symsNext, syms) && Within(syms, chain)
    }

    ghost predicate TlsOk()
      reads this`tlsNext, this`tlsHead, this`tlsTail, this`tls, this`tlsCnt, this`chain, this`count
    {
      && tlsHead == At(tls, 0) && tlsTail == At(tls, |tls| - 1) && tlsCnt == |tls| && IsList(tlsNext, tls)
      && KeysBelow(tlsNext, count) && Within(tls, chain)
    }

    ghost predicate DepsOk(c: seq<Id>)
      reads this`deps, this`relocated, this`chain
    {
      DepsIn(deps, chain) && AllIn(relocated, chain) && Settled(c, relocated, deps)
    }

    /** Between two calls of dlopen. */
    ghost predicate Idle()
      reads this`next, this`prev, this`head, this`tail, this`chain, this`count, this`file, this`info, this`symsNext,
            this`symsTail, this`syms, this`tlsNext, this`tlsHead, this`tlsTail, this`tls, this`tlsCnt, this`deps,
            this`relocated, this`freed
    {
      ChainOk() && SymsOk() && TlsOk() && DepsOk(chain) && NoLeak(chain, freed, count)
    }

    /** Following lazy_next from lazy_head visits the trail, which holds libraries of c. */
    ghost predicate LazyOk(c: seq<Id>)
      reads this`lazyNext, this`lazyHead, this`trail
    {
      Follows(lazyNext, lazyHead, trail) && Within(trail.s, c)
    }

    /** The lazy links of the libraries that were there are untouched. */
    ghost predicate LazyKept(o: Snapshot)
      reads this`lazyNext
    {
      forall d :: d in o.chain ==> Follow(lazyNext, d) == Follow(o.lazyNext, d)
    }

    /** Inside a call of dlopen that started at o. */
    ghost predicate Since(o: Snapshot)
      reads this
    {
      && ChainOk() && SymsOk() && TlsOk() && DepsOk(o.chain) && NoLeak(chain, freed, count)
      && LazyKept(o) && Extends(o, chain, syms, tls)
    }

    /** What is loaded. */
    ghost function Held(): Stock
      reads this`chain, this`file, this`info, this`tls
    {
      Stock(chain, file, info, tls)
    }

    /** Links a freshly allocated library behind the others. */
    method AppendChain(name: nat, i: File) returns (p: Id)
      requires ChainOk()
      modifies this`next, this`prev, this`tail, this`chain, this`count, this`file, this`info
      ensures ChainOk() && chain == old(chain) + [p] && p == old(count) && count == p + 1
      ensures file == old(file)[p := name] && info == old(info)[p := i]
    {
      hide IsList, IsBackList, KeysBelow, Known;
      p := count;
      ChainGrows(next, prev, chain, count, file, info, name, i);
      count := count + 1;
      file, info := file[p := name], info[p := i];
      next := next[tail := p];
      prev := prev[p := tail];
      tail := p;
      chain := chain + [p];
    }

    /** Links its TLS module behind the others and lays it out. */
    method AppendTls(p: Id)
      requires ChainOk() && TlsOk() && p in chain && p !in tls && p !in tlsNext
      modifies this`tlsNext, this`tlsHead, this`tlsTail, this`tls, this`tlsCnt, this`tlsOffset, this`tlsAlign
      ensures ChainOk() && TlsOk() && tls == old(tls) + [p]
    {
      hide IsList, IsBackList, KeysBelow, Within, Known;
      TlsGrows(tlsNext, tls, chain, count, file, info, p);
      tlsCnt := tlsCnt + 1;
      tlsOffset, tlsAlign := *, *;
      if tlsTail.To? { tlsNext := tlsNext[tlsTail.id := p]; } else { tlsHead := To(p); }
      tlsTail := To(p);
      tls := tls + [p];
    }

    /** A library more leaves the other lists what they are. */
    lemma ListsStay()
      requires ChainOk() && TlsOk() && SymsOk()
      ensures Within(syms, chain + [count]) && Within(tls, chain + [count]) && KeysBelow(tlsNext, count + 1)
      ensures count !in tls && count !in tlsNext
    {
      hide IsList, IsBackList, KeysBelow, Within, Known, LinksOnlyIn;
      TlsKept(tlsNext, tls, chain, count, file, info);
      WithinGrows(syms, chain, count);
    }

    /** Puts a new library in the chain; it has no TLS module yet. */
    method Enlist(name: nat, i: File, ghost o: Snapshot) returns (p: Id)
      requires Since(o)
      modifies this`next, this`prev, this`tail, this`chain, this`count, this`file, this`info
      ensures Since(o) && chain == old(chain) + [p] && p == old(count) && p !in tls && p !in tlsNext
      ensures file == old(file)[p := name] && info == old(info)[p := i]
    {
      hide ChainOk, LazyKept, Settled, DepsIn, AllIn, NoLeak, IsList, LinksOnlyIn, Within, Extends, KeysBelow, At;
      ListsStay();
      ExtendsMore(o, chain, syms, tls, count);
      DepsStay(deps, chain, count);
      AllInStays(relocated, chain, count);
      NoLeakGrows(chain, freed, count);
      p := AppendChain(name, i);
    }

    /** What load_library does once a file is mapped. */
    method Register(name: nat, i: File, ghost o: Snapshot) returns (p: Id)
      requires Since(o)
      modifies this`next, this`prev, this`tail, this`chain, this`count, this`file, this`info,
               this`tlsNext, this`tlsHead, this`tlsTail, this`tls, this`tlsCnt, this`tlsOffset, this`tlsAlign
      ensures Since(o) && chain == old(chain) + [p] && p == old(count)
      ensures file == old(file)[p := name] && info == old(info)[p := i]
      ensures tls == if i.hasTls then old(tls) + [p] else old(tls)
    {
      hide ChainOk, TlsOk, SymsOk, DepsOk, LazyKept, NoLeak, Extends;
      p := Enlist(name, i, o);
      if i.hasTls {
        ExtendsMoreTls(o, chain, syms, tls, p);
        AppendTls(p);
      }
    }

    lemma SinceFiles(o: Snapshot, name: nat, i: File)
      requires Since(o) && name !in FilesOf(chain, file)
      ensures FilesOf(chain + [count], file[count := name]) == FilesOf(chain, file) + {name}
      ensures count !in chain
    {
      hide FilesOf, SymsOk, TlsOk, DepsOk, LazyKept, Extends, NoLeak, IsList, IsBackList;
      FilesGrow(chain, count, file, info, name);
      KnownGrows(chain, count, file, info, name, i);
    }

    /** load_library: a library already in the chain, a new one, or nothing. */
    method LoadLibrary(disk: Disk, name: nat, noload: bool, ghost o: Snapshot) returns (p: Ref)
      requires Since(o)
      modifies this`next, this`prev, this`tail, this`chain, this`count, this`file, this`info,
               this`tlsNext, this`tlsHead, this`tlsTail, this`tls, this`tlsCnt, this`tlsOffset, this`tlsAlign
      ensures Since(o) && (p.To? ==> p.id in chain && p.id in file && file[p.id] == name)
      ensures Grown(disk, old(chain), old(file), chain, file)
      ensures || (chain == old(chain) && file == old(file) && info == old(info) && tls == old(tls)
                  && tlsCnt == old(tlsCnt) && tlsOffset == old(tlsOffset) && tlsAlign == old(tlsAlign))
              || (p == To(old(count)) && p.id !in old(chain) && chain == old(chain) + [p.id] && name in disk && !noload
                  && file == old(file)[p.id := name] && info == old(info)[p.id := disk[name]])
      ensures if p.To? then Brought(old(Held()), Held(), [name]) else Held() == old(Held())
      ensures p.To? && p.id in old(chain) ==> Held() == old(Held())
      ensures old(name in FilesOf(chain, file)) ==> p.To? && p.id in old(chain)
    {
      hide Since, FilesOf, Grown, SameFiles, Brought;
      GrownNot(disk, chain, file);
      SinceHeld(o);
      var q := Search(name, o);
      if q.To? {
        BroughtOld(Held(), name);
        return q;
      }
      if noload || name !in disk {
        return Null;
      }
      if * {
        return Null;  // mapping the file or allocating the record failed
      }
      SinceFiles(o, name, disk[name]);
      BroughtNew(Held(), count, name, disk[name]);
      ghost var c, f := chain, file;
      var id := Register(name, disk[name], o);
      SameFilesNew(c, f, id, name);
      GrownStep(disk, c, f, id, file, name);
      return To(id);
    }

    lemma SinceHeld(o: Snapshot)
      requires Since(o)
      ensures chain != [] && AllFiled(chain, file) && SameInfo(chain, info, info) && Distinct(chain)
      ensures DepsWithin(deps, chain)
    {
      hide SymsOk, TlsOk, LazyKept, NoLeak, Extends, IsBackList, KeysBelow, Settled, AllIn;
    }

    /** Looks for a file among the libraries behind the program. */
    method Search(name: nat, ghost o: Snapshot) returns (p: Ref)
      requires Since(o)
      ensures if p.To? then p.id in chain && p.id in file && file[p.id] == name && name in FilesOf(chain, file)
              else name !in FilesOf(chain, file)
    {
      hide SymsOk, TlsOk, DepsOk, NoLeak, LazyKept, Extends;
      p := Follow(next, head);
      ghost var k := 1;
      while p.To?
        invariant 1 <= k <= |chain| && p == At(chain, k)
        invariant forall i :: 1 <= i < k ==> file[chain[i]] != name
        decreases |chain| - k
      {
        if file[p.id] == name {
          return p;
        }
        p := Follow(next, p.id);
        k := k + 1;
      }
    }

    method RecordDeps(p: Id, list: seq<Id>, ghost o: Snapshot)
      requires Since(o) && p in chain && p !in deps && Within(list, chain)
      modifies this`deps
      ensures Since(o) && deps == old(deps)[p := list]
    {
      hide ChainOk, SymsOk, TlsOk, LazyKept, Extends, NoLeak, DepsIn, AllIn, Settled, Within;
      RecordKeeps(deps, p, list, chain, o.chain, relocated);
      deps := deps[p := list];
    }

    lemma SinceKnows(o: Snapshot, p: Id)
      requires Since(o) && p in chain
      ensures p in info
    {
      KnownInfo(chain, count, file, info, p);
    }

    /** load_direct_deps: false when a needed library could not be loaded. */
    method LoadDirectDeps(disk: Disk, p: Id, noload: bool, ghost o: Snapshot) returns (ok: bool)
      requires Since(o) && p in chain
      modifies this`next, this`prev, this`tail, this`chain, this`count, this`file, this`info,
               this`tlsNext, this`tlsHead, this`tlsTail, this`tls, this`tlsCnt, this`tlsOffset, this`tlsAlign, this`deps
      ensures Since(o) && Grown(disk, old(chain), old(file), chain, file)
      ensures if p in deps then deps == old(deps)[p := deps[p]] else deps == old(deps)
      ensures ok ==> p in deps
      ensures p in old(deps) ==> chain == old(chain) && deps == old(deps)
      ensures ok && p !in old(deps) ==> p in old(info) && Names(deps[p], file, old(info[p].needed))
      ensures ok && p !in old(deps) ==> p in old(info) && Brought(old(Held()), Held(), old(info[p].needed))
      ensures p in old(deps) ==> Held() == old(Held())
    {
      hide Since, Grown, Within, SameFiles, Names, Brought;
      GrownNot(disk, chain, file);
      if p in deps {
        return true;
      }
      SinceKnows(o, p);
      SinceHeld(o);
      BroughtNothing(Held());
      var needed := info[p].needed;
      var list: seq<Id> := [];
      WithinGrow([], chain, chain);
      NamesNone(file, needed);
      for i := 0 to |needed|
        invariant Since(o) && Grown(disk, old(chain), old(file), chain, file) && deps == old(deps) && p in chain
        invariant Within(list, chain) && |list| == i && Names(list, file, needed[..i])
        invariant Brought(old(Held()), Held(), needed[..i])
      {
        ghost var c, f, h := chain, file, Held();
        var dep := LoadLibrary(disk, needed[i], noload, o);
        if dep.To? {
          BroughtTogether(old(Held()), h, Held(), needed[..i], [needed[i]]);
          assert needed[..i + 1] == needed[..i] + [needed[i]];
        }
        GrownTransitive(disk, old(chain), old(file), c, f, chain, file);
        GrownPrefix(disk, c, f, chain, file);
        WithinGrow(list, c, chain);
        if dep.Null? {
          return false;
        }
        AddWithin(list, chain, dep.id);
        NamesGrow(list, c, f, file, needed, i, dep.id);
        list := list + [dep.id];
      }
      assert needed[..|needed|] == needed;
      RecordDeps(p, list, o);
      return true;
    }

    lemma SinceNext(o: Snapshot, k: nat)
      requires Since(o) && k < |chain|
      ensures chain[k] in chain && Follow(next, chain[k]) == At(chain, k + 1)
      ensures forall j :: 0 <= j < |chain| && chain[j] == chain[k] ==> j == k
    {
    }

    /** load_deps: loads what p and the libraries behind it need, which puts more libraries behind them. */
    method LoadDeps(disk: Disk, p: Id, noload: bool, ghost o: Snapshot) returns (ok: bool)
      requires Since(o) && p in chain
      modifies this`next, this`prev, this`tail, this`chain, this`count, this`file, this`info,
               this`tlsNext, this`tlsHead, this`tlsTail, this`tls, this`tlsCnt, this`tlsOffset, this`tlsAlign, this`deps
      ensures Since(o) && Grown(disk, old(chain), old(file), chain, file)
      ensures p in old(deps) ==> ok && chain == old(chain) && deps == old(deps)
      ensures ok && p !in old(deps) ==> forall i, j :: 0 <= i <= j < |chain| && chain[i] == p ==> chain[j] in deps
      ensures p in old(deps) ==> Held() == old(Held())
      ensures ok && p !in old(deps) && old(chain)[|old(chain)| - 1] == p ==>
                Walked(old(Held()), Held(), deps, |old(chain)| - 1, |chain|)
    {
      hide Since, Grown, Missing, Follow, SameFiles, Names, Brought, Walked, WalkAt, DepsWithin, Distinct, AllFiled, SameInfo;
      GrownNot(disk, chain, file);
      if p in deps {
        return true;
      }
      SinceHeld(o);
      ghost var first :| 0 <= first < |chain| && chain[first] == p;
      ghost var k := first;
      var q := To(p);
      ghost var h0, d0, alone := Held(), deps, chain[|chain| - 1] == p;
      WalkAtBegins(alone, Held(), deps, first);
      while q.To?
        invariant WalkAt(alone, h0, Held(), deps, first, k)
        invariant first <= k <= |chain| && q == At(chain, k) && Since(o)
        invariant Grown(disk, old(chain), old(file), chain, file)
        invariant first < |chain| && chain[first] == p
        invariant forall j :: first <= j < k ==> chain[j] in deps
        decreases Missing(disk, chain, file), |chain| - k
      {
        ghost var c, f, h, d := chain, file, Held(), deps;
        SinceNext(o, k);
        SinceHeld(o);
        ok := LoadDirectDeps(disk, q.id, noload, o);
        GrownTransitive(disk, old(chain), old(file), c, f, chain, file);
        GrownPrefix(disk, c, f, chain, file);
        if !ok {
          return false;
        }
        SinceHeld(o);
        assert q.id !in d ==> OneMore(h, Held(), d, deps, q.id);
        WalkAtOn(alone, h0, h, Held(), d, deps, first, k);
        SinceNext(o, k);
        q := Follow(next, q.id);
        k := k + 1;
      }
      WalkAtEnds(alone, h0, Held(), deps, first, k);
      SinceNext(o, first);
      return true;
    }

    /** extend_bfs_deps, which adds what p needs indirectly; CtorQueue has it on the arrays and marks. */
    method ExtendDeps(p: Id, ghost o: Snapshot) returns (ok: bool)
      requires Since(o) && p in deps
      modifies this`deps
      ensures Since(o)
      ensures if ok then p in deps && deps == old(deps)[p := deps[p]] && IsBreadthFirst(old(deps), info, p, deps[p])
              else deps == old(deps)
    {
      hide Since, Drawn, Direct, Joined, DepsWithin, AllDirect;
      SinceHeld(o);
      var list, i := Direct(deps, info, p), 0;
      DrawnDirect(deps, info, p, chain);
      assert list[..0] == [];
      JoinedNone(list, list);
      NoDirect(deps, info);
      while i < |list|
        invariant deps == old(deps) && i <= |list| && Within(list, chain) && Drawn(deps, p, list)
        invariant list == Joined(Direct(deps, info, p), AllDirect(deps, info, list[..i]))
        decreases Unlisted(chain, list), |list| - i
      {
        if * {
          return false;  // out of memory
        }
        ghost var was := list;
        list := Joined(list, Direct(deps, info, list[i]));
        ExtendOne(deps, info, p, chain, was, i);
        i := i + 1;
      }
      assert list[..i] == list;
      RecordList(p, list, o);
      return true;
    }

    method RecordList(p: Id, list: seq<Id>, ghost o: Snapshot)
      requires Since(o) && p in deps && Drawn(deps, p, list)
      modifies this`deps
      ensures Since(o) && deps == old(deps)[p := list]
    {
      hide ChainOk, SymsOk, TlsOk, LazyKept, Extends, NoLeak, DepsIn, AllIn, Settled, Within, Drawn;
      DrawnKeeps(deps, p, list, chain, o.chain, relocated);
      deps := deps[p := list];
    }

    method AddSyms(p: Id, ghost o: Snapshot)
      requires Since(o) && p in chain
      modifies this`symsNext, this`symsTail, this`syms
      ensures Since(o) && syms == if p in old(syms) then old(syms) else old(syms) + [p]
    {
      hide ChainOk, TlsOk, LazyKept, DepsOk, NoLeak, IsList, Within, LinksOnlyIn;
      MemberTest(symsNext, syms, p);
      if p !in symsNext && symsTail != p {
        AppendLink(symsNext, syms, p);
        AddWithin(syms, chain, p);
        symsNext := symsNext[symsTail := p];
        symsTail := p;
        syms := syms + [p];
      }
    }

    /** revert_syms, which chops off what was added since o. */
    method RevertSyms(oldTail: Id, ghost o: Snapshot)
      requires Since(o) && oldTail == o.symsTail
      modifies this`symsNext, this`symsTail, this`syms
      ensures Since(o) && syms == o.syms
    {
      hide ChainOk, TlsOk, LazyKept, DepsOk, NoLeak, IsList, Within, LinksOnlyIn, Chopped;
      ghost var s, was, n := syms, symsNext, |o.syms|;
      ghost var k := n - 1;
      ChoppedNot(was, s, n);
      var p := To(oldTail);
      while p.To?
        invariant n - 1 <= k <= |s| && p == At(s, k) && Chopped(was, symsNext, s, n, k)
        decreases |s| - k
      {
        ChopOne(was, symsNext, s, n, k);
        var next := Follow(symsNext, p.id);
        symsNext := symsNext - {p.id};
        p := next;
        k := k + 1;
      }
      ChoppedIsList(was, symsNext, s, n);
      assert s[..n] == o.syms;
      WithinGrow(o.syms, o.chain, chain);
      symsTail := oldTail;
      syms := o.syms;
    }

    /** prepare_lazy, which puts a library in front of the lazy chain unless it binds at once. */
    method PrepareLazy(p: Id, ghost o: Snapshot) returns (ok: bool)
      requires Since(o) && p in chain && p !in o.chain && Follows(lazyNext, lazyHead, trail)
      modifies this`lazyNext, this`lazyHead, this`trail
      ensures Since(o) && Follows(lazyNext, lazyHead, trail) && p in info
      ensures ok ==> trail == if info[p].bindNow then old(trail) else Push(old(trail), p)
    {
      hide ChainOk, SymsOk, TlsOk, DepsOk, NoLeak, Extends, Follows, Push;
      SinceKnows(o, p);
      PushFollows(lazyNext, lazyHead, trail, p);
      if info[p].bindNow {
        return true;
      }
      if * {
        return false;  // out of memory
      }
      lazyNext := if lazyHead.To? then lazyNext[p := lazyHead.id] else lazyNext - {p};
      lazyHead := To(p);
      trail := Push(trail, p);
      return true;
    }

    lemma SinceSettled(o: Snapshot, p: Id)
      requires Since(o)
      ensures p in o.chain ==> p in relocated && p in deps
      ensures p in deps ==> Within(deps[p], chain)
      ensures o.chain <= chain
    {
      hide ChainOk, SymsOk, TlsOk, LazyKept, NoLeak, IsList, Within;
    }

    method MarkRelocated(p: Id, ghost o: Snapshot)
      requires Since(o) && p in chain
      modifies this`relocated, this`under
      ensures Since(o) && relocated == old(relocated) + {p} && under == old(under)[p := syms]
    {
      hide ChainOk, SymsOk, TlsOk, LazyKept, NoLeak, Extends, DepsIn, Settled, AllIn;
      AllInStays(relocated, chain, p);
      MarkKeeps(o.chain, relocated, deps, p);
      relocated := relocated + {p};
      under := under[p := syms];
    }

    /** reloc_all from p on; a symbol that is not found ends it. */
    method RelocAll(p: Id, ghost k: nat, ghost o: Snapshot) returns (ok: bool)
      requires Since(o) && k < |chain| && chain[k] == p
      modifies this`relocated, this`under
      ensures Since(o) && (ok ==> forall j :: k <= j < |chain| ==> chain[j] in relocated)
      ensures RelocatedUnder(syms, old(relocated), relocated, under)
    {
      hide Since, Follow;
      var q := To(p);
      ghost var i := k;
      while q.To?
        invariant k <= i <= |chain| && q == At(chain, i) && Since(o)
        invariant forall j :: k <= j < i ==> chain[j] in relocated
        invariant RelocatedUnder(syms, old(relocated), relocated, under)
        decreases |chain| - i
      {
        SinceNext(o, i);
        if q.id !in relocated {
          if * {
            return false;
          }
          MarkRelocated(q.id, o);
        }
        q := Follow(next, q.id);
        i := i + 1;
      }
      return true;
    }

    /** The lazy half of the first load: p and what it needs. */
    method PrepareAll(p: Id, ghost o: Snapshot) returns (ok: bool)
      requires Since(o) && p in chain && p !in relocated && p in deps && Follows(lazyNext, lazyHead, trail)
      modifies this`lazyNext, this`lazyHead, this`trail
      ensures Since(o) && Follows(lazyNext, lazyHead, trail)
      ensures ok ==> trail == PushAll(old(trail), Prepared(p, true, deps, chain, relocated, info))
    {
      hide Since, Follows, Push, PushAll, Only, Within;
      SinceSettled(o, p);
      ghost var t, s, keep := trail, [p] + deps[p], Deferring(chain, relocated, info);
      NothingPrepared(t, s, keep);
      ok := PrepareLazy(p, o);
      PrepareMore(t, s, keep, 0);
      var list := deps[p];
      for i := 0 to |list|
        invariant Since(o) && Follows(lazyNext, lazyHead, trail)
        invariant ok ==> trail == PushAll(t, Only(s[..i + 1], keep))
      {
        PrepareMore(t, s, keep, i + 1);
        assert list[i] == s[i + 1];
        if ok && list[i] !in relocated {
          SinceSettled(o, list[i]);
          InList(list, i, chain);
          ok := PrepareLazy(list[i], o);
        }
      }
      assert s[..|list| + 1] == s;
    }

    method PrepareNew(p: Id, lazy: bool, ghost o: Snapshot) returns (ok: bool)
      requires Since(o) && p in chain && p in deps && Follows(lazyNext, lazyHead, trail)
      modifies this`lazyNext, this`lazyHead, this`trail
      ensures Since(o) && Follows(lazyNext, lazyHead, trail)
      ensures ok ==> trail == PushAll(old(trail), Prepared(p, lazy, deps, chain, relocated, info))
    {
      hide Since, Follows, Only, Deferring, Push;
      ok := true;
      if p !in relocated && lazy {
        ok := PrepareAll(p, o);
      }
    }

    /** Makes the symbols of p and of what it needs global. */
    method AddAll(p: Id, ghost o: Snapshot)
      requires Since(o) && p in chain && p in deps
      modifies this`symsNext, this`symsTail, this`syms
      ensures Since(o) && syms == Joined(old(syms), [p] + deps[p])
      ensures old(syms) <= syms && p in syms && Within(deps[p], syms)
    {
      hide Since, Joined, Within;
      SinceSettled(o, p);
      ghost var s, all := syms, [p] + deps[p];
      JoinedNone(s, all);
      JoinedGrows(s, all, 0);
      AddSyms(p, o);
      var list := deps[p];
      for i := 0 to |list|
        invariant Since(o) && syms == Joined(s, all[..i + 1])
      {
        assert list[i] == all[i + 1];
        InList(list, i, chain);
        JoinedGrows(s, all, i + 1);
        AddSyms(list[i], o);
      }
      assert all[..|list| + 1] == all;
      JoinedHolds(s, p, list);
    }

    lemma SinceAllSettled(o: Snapshot)
      requires Since(o) && forall j :: |o.chain| <= j < |chain| ==> chain[j] in relocated && chain[j] in deps
      ensures Settled(chain, relocated, deps)
    {
      hide ChainOk, SymsOk, TlsOk, LazyKept, NoLeak, DepsIn, Settled, IsList, Within, AllIn;
      SettledAll(o.chain, chain, relocated, deps);
    }

    /** Makes symbols global for the relocation of what is new, from the n-th library on, and relocates it. */
    method Bind(p: Id, ghost n: nat, global: bool, ghost o: Snapshot) returns (ok: bool)
      requires Since(o) && p in chain && p in deps && (p !in relocated ==> n < |chain| && chain[n] == p)
      modifies this`symsNext, this`symsTail, this`syms, this`relocated, this`under
      ensures Since(o) && (ok && global ==> p in syms && Within(deps[p], syms))
      ensures syms == if p !in old(relocated) || global then Joined(old(syms), [p] + deps[p]) else old(syms)
      ensures RelocatedUnder(syms, old(relocated), relocated, under)
      ensures ok && p !in old(relocated) ==> forall j :: n <= j < |chain| ==> chain[j] in relocated
      ensures p in old(relocated) ==> ok && relocated == old(relocated)
    {
      hide Since, Within, Joined;
      ok := true;
      if p !in relocated || global {
        AddAll(p, o);
      }
      if p !in relocated {
        ok := RelocAll(p, n, o);
      }
    }

    /** load_deps, extend_bfs_deps, and the memory for the queue of constructors. */
    method LoadGraph(disk: Disk, p: Id, noload: bool, ghost o: Snapshot) returns (ok: bool)
      requires Since(o) && p in chain && o.chain <= chain
      requires chain == o.chain || (chain == o.chain + [p] && p !in o.chain && p !in deps)
      modifies this`next, this`prev, this`tail, this`chain, this`count, this`file, this`info,
               this`tlsNext, this`tlsHead, this`tlsTail, this`tls, this`tlsCnt, this`tlsOffset, this`tlsAlign, this`deps
      ensures Since(o) && SameFiles(old(chain), old(file), file) && old(chain) <= chain
      ensures ok ==> p in chain && p in deps && forall j :: |o.chain| <= j < |chain| ==> chain[j] in deps
      ensures ok ==> Opened(old(Held()), Held(), deps, p, |o.chain|)
      ensures old(chain) == o.chain ==> Held() == old(Held())
    {
      hide Since, Settled, Within, Grown, SameFiles, Names, Brought, Walked, Opened, IsBreadthFirst, Missing;
      ghost var n := |o.chain|;
      SinceSettled(o, p);
      SinceHeld(o);
      ghost var c, f, h := chain, file, Held();
      ok := LoadDeps(disk, p, noload, o);
      GrownPrefix(disk, c, f, chain, file);
      if !ok { return; }
      assert forall j :: n <= j < |chain| ==> chain[j] in deps;
      SinceHeld(o);
      ghost var d := deps;
      ok := ExtendDeps(p, o);
      if !ok { return; }
      if n == |c| {
        NothingOpened(Held(), deps, p, n);
      } else {
        OpenedAll(h, Held(), d, deps, p, n);
      }
      if * {
        return false;  // no memory for the queue of constructors
      }
    }

    /** Everything dlopen does between loading p and committing. */
    method LoadNew(disk: Disk, p: Id, lazy: bool, global: bool, noload: bool, ghost o: Snapshot) returns (ok: bool)
      requires Since(o) && p in chain && o.chain <= chain && Follows(lazyNext, lazyHead, trail)
      requires chain == o.chain || (chain == o.chain + [p] && p !in o.chain && p !in relocated && p !in deps)
      ensures ok ==> Opened(old(Held()), Held(), deps, p, |o.chain|)
      ensures old(chain) == o.chain ==> Held() == old(Held())
      modifies this`next, this`prev, this`tail, this`chain, this`count, this`file, this`info,
               this`tlsNext, this`tlsHead, this`tlsTail, this`tls, this`tlsCnt, this`tlsOffset, this`tlsAlign, this`deps,
               this`symsNext, this`symsTail, this`syms, this`lazyNext, this`lazyHead, this`trail, this`relocated, this`under
      ensures Follows(lazyNext, lazyHead, trail)
      ensures ok ==> p in deps && syms == if p !in old(relocated) || global then Joined(old(syms), [p] + deps[p]) else old(syms)
      ensures ok ==> RelocatedUnder(syms, old(relocated), relocated, under)
      ensures p in old(relocated) ==> relocated == old(relocated)
      ensures ok ==> p in deps && trail == PushAll(old(trail), Prepared(p, lazy, deps, chain, old(relocated), info))
      ensures Since(o) && (ok ==> p in chain && p in deps && Settled(chain, relocated, deps))
      ensures ok && global ==> p in syms && Within(deps[p], syms)
      ensures SameFiles(old(chain), old(file), file)
    {
      hide Since, Settled, Within, Grown, Drawn, SameFiles, Follows, Prepared, PushAll, Follow, At, Missing, Joined;
      hide RelocatedUnder, Opened;
      ghost var n := |o.chain|;
      SinceSettled(o, p);
      ok := LoadGraph(disk, p, noload, o);
      if !ok { return; }
      SinceSettled(o, p);
      ok := PrepareNew(p, lazy, o);
      if !ok { return; }
      ok := Bind(p, n, global, o);
      if !ok { return; }
      SinceAllSettled(o);
    }

    lemma SinceParts(o: Snapshot)
      requires Since(o)
      ensures ChainOk() && NoLeak(chain, freed, count)
      ensures DepsIn(deps, chain) && AllIn(relocated, chain) && Settled(o.chain, relocated, deps)
      ensures 0 < |o.chain| <= |chain| && chain[..|o.chain|] == o.chain && o.tail == chain[|o.chain| - 1]
    {
      hide ChainOk, SymsOk, TlsOk, NoLeak, LazyKept, DepsIn, AllIn, Settled;
    }

    lemma ChainParts()
      requires ChainOk()
      ensures IsList(next, chain) && Known(chain, count, file, info)
    {
      hide IsList, IsBackList, Known, KeysBelow;
    }

    lemma ChainNext(k: nat)
      requires ChainOk() && k < |chain|
      ensures Follow(next, chain[k]) == At(chain, k + 1)
    {
    }

    /** Frees what is linked behind the libraries of o. */
    method FreeNew(o: Snapshot)
      requires Since(o)
      modifies this`freed, this`relocated, this`deps
      ensures NoLeak(o.chain, freed, count)
      ensures DepsIn(deps, o.chain) && AllIn(relocated, o.chain) && Settled(o.chain, relocated, deps)
    {
      hide Since, ChainOk, IsList, Known, DepsIn, AllIn, Settled, NoLeak, Members, Follow;
      SinceParts(o);
      ChainParts();
      ghost var n, k := |o.chain|, |o.chain|;
      ghost var free0, rel0, deps0 := freed, relocated, deps;
      NoMembers(chain, n);
      ChainNext(n - 1);
      var p := Follow(next, o.tail);
      while p.To?
        invariant n <= k <= |chain| && p == At(chain, k)
        invariant freed == free0 + Members(chain, n, k)
        invariant relocated == rel0 - Members(chain, n, k)
        invariant deps == deps0 - Members(chain, n, k)
        decreases |chain| - k
      {
        MembersGrow(chain, n, k);
        ChainNext(k);
        var q := Follow(next, p.id);
        freed := freed + {p.id};
        relocated := relocated - {p.id};
        deps := deps - {p.id};
        p := q;
        k := k + 1;
      }
      Sweep(next, chain, n, count, file, info, free0, rel0, deps0);
    }

    lemma SinceTls(o: Snapshot)
      requires Since(o)
      ensures TlsOk() && o.tls <= tls && o.tlsTail == At(o.tls, |o.tls| - 1) && o.tlsCnt == |o.tls| && Within(o.tls, o.chain)
    {
      hide ChainOk, SymsOk, DepsOk, NoLeak, LazyKept, IsList, KeysBelow, Within;
    }

    /** Takes the TLS modules behind those of o out. */
    method RestoreTls(o: Snapshot)
      requires TlsOk() && o.tls <= tls && o.tlsTail == At(o.tls, |o.tls| - 1) && o.tlsCnt == |o.tls|
      modifies this`tlsNext, this`tlsHead, this`tlsTail, this`tls, this`tlsCnt, this`tlsOffset, this`tlsAlign
      ensures TlsOk() && tls == o.tls && tlsCnt == o.tlsCnt && tlsOffset == o.tlsOffset && tlsAlign == o.tlsAlign
    {
      hide IsList, KeysBelow;
      assert tls[..|o.tls|] == o.tls;
      if o.tls == [] { EmptyList(tlsNext); } else { CutTls(tlsNext, tls, |o.tls|, count); }
      if o.tlsTail.Null? { tlsHead := Null; }
      tlsTail := o.tlsTail;
      if tlsTail.To? { tlsNext := tlsNext - {tlsTail.id}; }
      tlsCnt := o.tlsCnt;
      tlsOffset := o.tlsOffset;
      tlsAlign := o.tlsAlign;
      tls := o.tls;
    }

    lemma SinceChain(o: Snapshot)
      requires Since(o)
      ensures ChainOk() && 0 < |o.chain| && o.chain <= chain && o.tail == o.chain[|o.chain| - 1]
    {
      hide ChainOk, SymsOk, TlsOk, DepsOk, NoLeak, LazyKept, Within;
    }

    /** Takes the libraries behind those of o out of the chain. */
    method CutTail(o: Snapshot)
      requires ChainOk() && 0 < |o.chain| && o.chain <= chain && o.tail == o.chain[|o.chain| - 1]
      modifies this`next, this`tail, this`chain
      ensures ChainOk() && chain == o.chain
    {
      hide IsList, IsBackList, Known, KeysBelow;
      CutChain(next, prev, chain, |o.chain|, count, file, info);
      assert chain[..|o.chain|] == o.chain;
      tail := o.tail;
      next := next - {tail};
      chain := o.chain;
    }

    lemma RestoredSyms(o: Snapshot)
      requires Since(o) && syms == o.syms
      ensures syms != [] && head == syms[0] && symsTail == syms[|syms| - 1] && IsList(symsNext, syms)
      ensures LinksOnlyIn(symsNext, syms) && Within(syms, o.chain)
    {
      hide ChainOk, TlsOk, DepsOk, NoLeak, LazyKept, IsList, LinksOnlyIn, Within;
    }

    /** Takes everything new out again after a failure. */
    method Rollback(o: Snapshot)
      requires Since(o) && WasLazy(o)
      modifies this`next, this`tail, this`chain, this`tlsNext, this`tlsHead, this`tlsTail, this`tls, this`tlsCnt,
               this`tlsOffset, this`tlsAlign, this`deps, this`symsNext, this`symsTail, this`syms, this`lazyHead,
               this`trail, this`relocated, this`freed
      ensures trail == o.trail && LazyOk(chain)
      ensures Idle() && chain == o.chain && syms == o.syms && tls == o.tls
      ensures lazyHead == o.lazyHead && tlsCnt == o.tlsCnt && tlsOffset == o.tlsOffset && tlsAlign == o.tlsAlign
    {
      hide Idle, Since, Follows, LazyKept, Within;
      SinceExtends(o);
      KeptLinks(o);
      RollbackLists(o);
      lazyHead := o.lazyHead;
      trail := o.trail;
    }

    /** The lists, apart from the lazy chain. */
    method RollbackLists(o: Snapshot)
      requires Since(o)
      modifies this`next, this`tail, this`chain, this`tlsNext, this`tlsHead, this`tlsTail, this`tls, this`tlsCnt,
               this`tlsOffset, this`tlsAlign, this`deps, this`symsNext, this`symsTail, this`syms,
               this`relocated, this`freed
      ensures Idle() && chain == o.chain && syms == o.syms && tls == o.tls
      ensures tlsCnt == o.tlsCnt && tlsOffset == o.tlsOffset && tlsAlign == o.tlsAlign
    {
      hide Since, ChainOk, IsList, KeysBelow, Within, NoLeak, Settled, DepsIn, AllIn, LinksOnlyIn, At;
      RevertSyms(o.symsTail, o);
      RestoredSyms(o);
      SinceTls(o);
      SinceChain(o);
      FreeNew(o);
      RestoreTls(o);
      CutTail(o);
    }

    lemma KeptLinks(o: Snapshot)
      requires WasLazy(o) && LazyKept(o)
      ensures Follows(lazyNext, o.lazyHead, o.trail) && Within(o.trail.s, o.chain)
    {
      LinksKept(o, lazyNext);
    }

    /**
     redo_lazy_relocs, as far as it changes the chain: every library that is found is taken off, retried, and put back
     if something in it stays unresolved. On a loop some are visited twice, and the visits end all the same.
     */
    method RedoLazyRelocs(unresolved: set<Id>)
      requires Follows(lazyNext, lazyHead, trail)
      modifies this`lazyNext, this`lazyHead, this`trail
      ensures Follows(lazyNext, lazyHead, trail) && trail == Redone(old(trail), unresolved)
    {
      hide RedoAt, Follows, Revisits, Redone, Follow, Visited, HeadAfter;
      ghost var t := trail;
      ghost var again, i, j := Revisits(t, unresolved), 0, 0;
      RedoBegins(lazyNext, lazyHead, t, unresolved);
      var p := lazyHead;
      lazyHead := Null;
      while p.To?
        invariant RedoAt(lazyNext, lazyHead, t, unresolved, i, j, p)
        decreases |t.s| - i, |again| - j
      {
        RedoStep(lazyNext, lazyHead, t, unresolved, i, j, p.id);
        var next := Follow(lazyNext, p.id);
        Revisit(p.id, unresolved);
        if i < |t.s| { i := i + 1; } else { j := j + 1; }
        p := next;
      }
      RedoEnds(lazyNext, lazyHead, t, unresolved, i, j);
      trail := Redone(t, unresolved);
    }

    method Revisit(p: Id, unresolved: set<Id>)
      modifies this`lazyNext, this`lazyHead
      ensures lazyNext == Visited(old(lazyNext), old(lazyHead), p, unresolved)
      ensures lazyHead == HeadAfter(old(lazyHead), p, unresolved)
    {
      if p in unresolved {
        lazyNext := if lazyHead.To? then lazyNext[p := lazyHead.id] else lazyNext - {p};
        lazyHead := To(p);
      } else {
        lazyNext := lazyNext - {p};
      }
    }

    lemma OldSettled(o: Snapshot)
      requires Since(o) && WasLazy(o)
      ensures forall d :: d in o.trail.s ==> d in relocated
      ensures o.chain <= chain && Within(o.trail.s, chain)
    {
      hide ChainOk, SymsOk, TlsOk, NoLeak, LazyKept, DepsIn, AllIn, Follows;
    }

    lemma StartOf(o: Snapshot)
      requires Idle() && o.chain == chain && o.syms == syms && o.tls == tls && o.lazyNext == lazyNext
      requires o.tail == tail && o.symsTail == symsTail && o.tlsTail == tlsTail && o.tlsCnt == tlsCnt
      ensures Since(o)
    {
      hide IsList, IsBackList, Known, KeysBelow, NoLeak, Within, LinksOnlyIn, DepsIn, AllIn, Settled;
    }

    lemma StartLazy(o: Snapshot)
      requires LazyOk(chain) && o.chain == chain && o.lazyNext == lazyNext && o.lazyHead == lazyHead && o.trail == trail
      ensures WasLazy(o) && Follows(lazyNext, lazyHead, trail)
    {
    }

    lemma EndOf(o: Snapshot)
      requires Since(o) && (Settled(chain, relocated, deps) || chain == o.chain)
      ensures Idle()
    {
      hide ChainOk, SymsOk, TlsOk, NoLeak, Extends, LazyKept, Settled, DepsIn, AllIn;
    }

    lemma IdleParts()
      requires Idle()
      ensures AllIn(relocated, chain) && Known(chain, count, file, info) && NoLeak(chain, freed, count)
    {
      hide IsList, IsBackList, Known, KeysBelow, NoLeak, Within, LinksOnlyIn, DepsIn, AllIn, Settled;
    }

    lemma SinceExtends(o: Snapshot)
      requires Since(o)
      ensures o.chain <= chain && o.syms <= syms && LazyKept(o)
    {
      hide ChainOk, SymsOk, TlsOk, DepsOk, NoLeak, LazyKept, Within;
    }

    /** dlopen under the lock, where unresolved says what the retries find. */
    method Dlopen(disk: Disk, name: nat, lazy: bool, global: bool, noload: bool, shuttingDown: bool, unresolved: set<Id>)
      returns (p: Ref)
      requires Idle() && LazyOk(chain)
      modifies this
      ensures Idle() && LazyOk(chain)
      ensures p.Null? ==> trail == old(trail) && forall d :: d in old(chain) ==> Follow(lazyNext, d) == Follow(old(lazyNext), d)
      ensures p.To? ==>
                && p.id in deps
                && LazyOutcome(old(trail), Prepared(p.id, lazy, deps, chain, old(relocated), info), unresolved, trail)
      ensures p.Null? ==> chain == old(chain) && syms == old(syms) && tls == old(tls) && lazyHead == old(lazyHead)
                          && tlsCnt == old(tlsCnt) && tlsOffset == old(tlsOffset) && tlsAlign == old(tlsAlign)
      ensures p.Null? ==> forall d :: old(count) <= d < count ==> d in freed
      ensures p.To? ==> old(chain) <= chain && p.id in chain && p.id in deps && freed == old(freed)
      ensures p.To? ==> p.id in file && file[p.id] == name
      ensures p.To? && !global ==> syms == old(syms)
      ensures p.To? && global ==> syms == Joined(old(syms), [p.id] + deps[p.id])
      ensures p.To? && global ==> old(syms) <= syms && p.id in syms && Within(deps[p.id], syms)
      ensures p.To? ==> RelocatedUnder(Joined(old(syms), [p.id] + deps[p.id]), old(relocated), relocated, under)
      ensures p.To? ==> LoadedInOrder(old(Held()), Held(), name, deps, p.id)
      ensures shuttingDown ==> p.Null? && Held() == old(Held())
      ensures noload ==> chain == old(chain)
    {
      hide Idle, Since, Within, Grown, Settled, NoLeak, Known, SameFiles, Follow, Follows, Prepared, LazyOutcome;
      hide Joined, RelocatedUnder, Opened, LoadedInOrder, Brought, FilesOf, DepsWithin, AllFiled, SameInfo, Distinct, AllIn;
      hide WasLazy, LazyOk;
      if shuttingDown {
        return Null;
      }
      var o := Snapshot(tail, symsTail, lazyHead, tlsTail, tlsCnt, tlsOffset, tlsAlign, chain, syms, tls, lazyNext, trail);
      StartOf(o);
      StartLazy(o);
      IdleParts();
      ghost var c, f, i, n := chain, file, info, count;
      SinceHeld(o);
      ghost var h := Held();
      p := LoadLibrary(disk, name, noload, o);
      ghost var h1 := Held();
      if p.Null? {
        SinceExtends(o);
        EndOf(o);
        IdleParts();
        NewIsFreed(c, n, f, i, freed, count);
        return;
      }
      NewHasNoDeps(h, deps, p.id);
      NewIsFresh(c, relocated, p.id);
      var ok := LoadAndCommit(disk, p.id, lazy, global, noload, o, unresolved);
      if !ok {
        IdleParts();
        NewIsFreed(c, n, f, i, freed, count);
        return Null;
      }
      OpenedIsLoaded(h, h1, Held(), name, deps, p.id);
    }

    /** The rest of the transaction once p is loaded: it is committed or rolled back. */
    method LoadAndCommit(disk: Disk, p: Id, lazy: bool, global: bool, noload: bool, o: Snapshot, unresolved: set<Id>)
      returns (ok: bool)
      requires WasLazy(o) && trail == o.trail && Follows(lazyNext, lazyHead, trail) && syms == o.syms
      requires Since(o) && p in chain && o.chain <= chain && p in file
      requires chain == o.chain || (chain == o.chain + [p] && p !in o.chain && p !in relocated && p !in deps)
      modifies this
      ensures Idle() && LazyOk(chain)
      ensures !ok ==> trail == o.trail && LazyKept(o)
      ensures ok ==> p in deps && (global ==> syms == Joined(o.syms, [p] + deps[p]))
      ensures ok ==> Opened(old(Held()), Held(), deps, p, |o.chain|)
      ensures old(chain) == o.chain ==> chain == o.chain
      ensures ok ==> RelocatedUnder(Joined(o.syms, [p] + deps[p]), old(relocated), relocated, under)
      ensures ok ==> p in deps && LazyOutcome(o.trail, Prepared(p, lazy, deps, chain, old(relocated), info), unresolved, trail)
      ensures !ok ==> chain == o.chain && syms == o.syms && tls == o.tls && lazyHead == o.lazyHead
                      && tlsCnt == o.tlsCnt && tlsOffset == o.tlsOffset && tlsAlign == o.tlsAlign
      ensures ok ==> o.chain <= chain && p in chain && p in deps && freed == old(freed) && p in file && file[p] == old(file[p])
      ensures ok && !global ==> syms == o.syms
      ensures ok && global ==> o.syms <= syms && p in syms && Within(deps[p], syms)
    {
      hide Idle, Since, LazyKept, Within, Grown, Settled, NoLeak, Known, SameFiles, Follow, Follows, Prepared, LazyOutcome;
      hide PushAll, Redone, Distinct, Apart, Joined, Opened;
      OldSettled(o);
      ghost var c, f, before := chain, file, relocated;
      ok := LoadNew(disk, p, lazy, global, noload, o);
      SinceExtends(o);
      if !ok {
        Rollback(o);
        return;
      }
      FilesStay(c, f, file, p);
      Commit(p, lazy, global, o, unresolved, before);
    }

    /** From the commit on: symbols that are to stay local are taken back, and the deferred relocations retried. */
    method Commit(p: Id, lazy: bool, global: bool, o: Snapshot, unresolved: set<Id>, ghost before: set<Id>)
      requires Since(o) && WasLazy(o) && Settled(chain, relocated, deps) && p in deps && Follows(lazyNext, lazyHead, trail)
      requires trail == PushAll(o.trail, Prepared(p, lazy, deps, chain, before, info))
      requires forall d :: d in o.trail.s ==> d in before
      modifies this`symsNext, this`symsTail, this`syms, this`lazyNext, this`lazyHead, this`trail
      ensures Idle() && LazyOk(chain) && syms == if global then old(syms) else o.syms
      ensures LazyOutcome(o.trail, Prepared(p, lazy, deps, chain, before, info), unresolved, trail)
    {
      hide Idle, Since, LazyKept, Within, Settled, Follows, Prepared, LazyOutcome, PushAll, Redone, Distinct, Apart;
      if !global {
        RevertSyms(o.symsTail, o);
      }
      OldSettled(o);
      EndOf(o);
      ghost var list := Prepared(p, lazy, deps, chain, before, info);
      PreparedApart(p, lazy, deps, chain, before, info, o.trail.s);
      TrailParts(o.lazyNext, o.lazyHead, o.trail);
      OutcomeHolds(o.trail, list, unresolved, chain);
      RedoLazyRelocs(unresolved);
    }

    /** At the start of the program: it and the linker itself, libraries 0 and 1. */
    constructor (program: File, ldso: File, ldsoFile: nat)
      ensures Idle() && LazyOk(chain) && chain == syms == [0, 1] && freed == {} && trail == Trail([], 0)
      ensures tls == if program.hasTls then [0] else []
    {
      hide IsList, IsBackList, Known, KeysBelow, Within, LinksOnlyIn, DepsIn, AllIn, Settled, NoLeak, At;
      TwoLinked();
      TwoLoaded(map[0 := ldsoFile, 1 := ldsoFile], map[0 := program, 1 := ldso]);
      next, prev := map[0 := 1], map[1 := 0];
      symsNext, lazyNext, tlsNext := map[0 := 1], map[], map[];
      head, tail, symsTail := 0, 1, 1;
      lazyHead, tlsHead, tlsTail := Null, if program.hasTls then To(0) else Null, if program.hasTls then To(0) else Null;
      tlsCnt, tlsOffset, tlsAlign, count := if program.hasTls then 1 else 0, 0, 1, 2;
      file, info := map[0 := ldsoFile, 1 := ldsoFile], map[0 := program, 1 := ldso];
      deps, relocated, freed := map[0 := [1], 1 := []], {0, 1}, {};
      chain, syms, tls, trail := [0, 1], [0, 1], if program.hasTls then [0] else [], Trail([], 0);
    }

    /** Any number of calls, each of which may fail. */
    method Run(disk: Disk, calls: seq<Request>)
      requires Idle() && LazyOk(chain)
      modifies this
      ensures Idle() && LazyOk(chain) && old(chain) <= chain
    {
      hide Idle, LazyOk, LazyOutcome, Prepared, Within, Follow;
      for i := 0 to |calls|
        invariant Idle() && LazyOk(chain) && old(chain) <= chain
      {
        var r := calls[i];
        var p := Dlopen(disk, r.name, r.lazy, r.global, r.noload, r.shuttingDown, r.unresolved);
      }
    }
  }
}
