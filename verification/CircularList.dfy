/**
 Intrusive circular doubly linked lists: a head and the entries linked to it form a ring. Every
 operation rewires the ring in place; what it does is said about the sequence of entries.
 */
module CircularList {
  import opened Basics

  class Node {
    var next: Node?
    var prev: Node?

    constructor ()
      ensures next == null && prev == null
    {
      next, prev := null, null;
    }
  }

  ghost predicate NextPath(p: seq<Node>)
    requires p != []
    reads p[..|p| - 1]`next
  {
    var front := p[..|p| - 1];
    forall i :: 0 <= i < |front| ==> front[i].next == p[i + 1]
  }

  ghost predicate PrevPath(p: seq<Node>)
    requires p != []
    reads p[1..]`prev
  {
    forall i :: 0 <= i < |p| - 1 ==> p[1..][i].prev == p[i]
  }

  /** Each node of p leads to the next one, and that one back. */
  ghost predicate Path(p: seq<Node>)
    requires p != []
    reads p[..|p| - 1]`next, p[1..]`prev
  {
    NextPath(p) && PrevPath(p)
  }

  ghost predicate Linked(a: Node, b: Node)
    reads a`next, b`prev
  {
    a.next == b && b.prev == a
  }

  /** The list at head holds the entries s. */
  ghost predicate IsList(head: Node, s: seq<Node>)
    reads head, s
  {
    Distinct([head] + s) && Path([head] + s + [head])
  }

  lemma LinkOf(p: seq<Node>, i: nat)
    requires p != [] && Path(p) && i < |p| - 1
    ensures Linked(p[i], p[i + 1])
  {
    var front, back := p[..|p| - 1], p[1..];
    assert front[i] == p[i] && back[i] == p[i + 1] && front[i].next == p[i + 1] && back[i].prev == p[i];
  }

  lemma PathOf(p: seq<Node>)
    requires p != [] && forall i {:trigger p[i]} :: 0 <= i < |p| - 1 ==> Linked(p[i], p[i + 1])
    ensures Path(p)
  {
    var front, back := p[..|p| - 1], p[1..];
    forall i | 0 <= i < |front| ensures front[i].next == p[i + 1] && back[i].prev == p[i] {
      assert Linked(p[i], p[i + 1]);
    }
  }

  lemma Cat(p: seq<Node>, q: seq<Node>)
    requires p != [] && q != []
    ensures Path(p + q) <==> Path(p) && Path(q) && Linked(p[|p| - 1], q[0])
  {
    hide Path, Linked;
    var r, n := p + q, |p|;
    if Path(r) {
      forall i {:trigger p[i]} | 0 <= i < |p| - 1 ensures Linked(p[i], p[i + 1]) {
        LinkOf(r, i);
      }
      PathOf(p);
      forall i {:trigger q[i]} | 0 <= i < |q| - 1 ensures Linked(q[i], q[i + 1]) {
        LinkOf(r, n + i);
      }
      PathOf(q);
      LinkOf(r, n - 1);
    }
    if Path(p) && Path(q) && Linked(p[n - 1], q[0]) {
      forall i {:trigger r[i]} | 0 <= i < |r| - 1 ensures Linked(r[i], r[i + 1]) {
        if i < n - 1 {
          LinkOf(p, i);
        } else if i > n - 1 {
          LinkOf(q, i - n);
        }
      }
      PathOf(r);
    }
  }

  ghost predicate Apart(p: seq<Node>, q: seq<Node>) {
    forall x :: x in p ==> x !in q
  }

  lemma DistinctCat(p: seq<Node>, q: seq<Node>)
    ensures Distinct(p + q) <==> Distinct(p) && Distinct(q) && Apart(p, q)
  {
    var r := p + q;
    if Distinct(p) && Distinct(q) && Apart(p, q) {
      forall i, j | 0 <= i < j < |r| ensures r[i] != r[j] {
        if i < |p| <= j { assert r[i] in p && r[j] in q; }
      }
    }
    if Distinct(r) {
      forall i, j | 0 <= i < j < |q| ensures q[i] != q[j] { assert r[|p| + i] != r[|p| + j]; }
      forall i, j | 0 <= i < j < |p| ensures p[i] != p[j] { assert r[i] != r[j]; }
      forall x | x in p ensures x !in q {
        var i :| 0 <= i < |p| && p[i] == x;
        forall j | 0 <= j < |q| ensures q[j] != x { assert r[i] != r[|p| + j]; }
      }
    }
  }

  lemma Single(x: Node)
    ensures Path([x])
  {
  }

  /** A list around one of its entries. */
  lemma Around(head: Node, a: seq<Node>, e: Node, b: seq<Node>)
    ensures IsList(head, a + [e] + b) <==>
              && Path([head] + a) && Path(b + [head]) && Linked(([head] + a)[|a|], e) && Linked(e, (b + [head])[0])
              && Distinct([head] + a) && Distinct(b) && Apart([head] + a, b) && e !in [head] + a && e !in b
  {
    hide Path, Linked, Distinct;
    var s := a + [e] + b;
    assert [head] + s + [head] == ([head] + a) + ([e] + (b + [head]));
    Cat([head] + a, [e] + (b + [head]));
    Cat([e], b + [head]);
    Single(e);
    assert [head] + s == ([head] + a) + ([e] + b);
    DistinctCat([head] + a, [e] + b);
    DistinctCat([e], b);
    DistinctOne(e);
  }

  lemma DistinctOne(x: Node)
    ensures Distinct([x])
  {
  }

  /** A list without the entry between a and b. */
  lemma Between(head: Node, a: seq<Node>, b: seq<Node>)
    ensures IsList(head, a + b) <==>
              && Path([head] + a) && Path(b + [head]) && Linked(([head] + a)[|a|], (b + [head])[0])
              && Distinct([head] + a) && Distinct(b) && Apart([head] + a, b)
  {
    hide Path, Linked, Distinct;
    assert [head] + (a + b) + [head] == ([head] + a) + (b + [head]);
    Cat([head] + a, b + [head]);
    assert [head] + (a + b) == ([head] + a) + b;
    DistinctCat([head] + a, b);
  }

  /** The links at a gap between a and b are no others' links: writing there leaves both sides what they are. */
  lemma Gap(head: Node, a: seq<Node>, b: seq<Node>)
    requires Distinct([head] + a) && Distinct(b) && Apart([head] + a, b)
    ensures var p, q := [head] + a, b + [head];
      && p[|a|] !in p[..|a|] && p[|a|] !in q[..|b|] && q[0] !in p[1..] && q[0] !in q[1..]
      && (forall x :: x in p[..|a|] || x in p[1..] ==> x in p) && (forall x :: x in q[..|b|] ==> x in b)
      && (forall x :: x in q[1..] ==> x in b || x == head)
  {
    var p, q := [head] + a, b + [head];
    DistinctCat(p, b);
    assert p[1..] == a && q[..|b|] == b;
    assert p[..|a|] + [p[|a|]] == p;
    DistinctCat(p[..|a|], [p[|a|]]);
    DistinctCat([head], a);
    DistinctCat(b, [head]);
    DistinctOne(head);
    assert [q[0]] + q[1..] == q;
    DistinctCat([q[0]], q[1..]);
    if b == [] { assert q[0] == head && head in [head]; } else { assert q[0] == b[0] && b[0] in b; }
  }

  /** next and prev undo each other all around a list. */
  lemma RingInverse(head: Node, s: seq<Node>, x: Node)
    requires IsList(head, s) && (x == head || x in s)
    ensures x.next != null && x.prev != null && x.next.prev == x && x.prev.next == x
  {
    hide IsList, Path, Distinct;
    if x == head {
      Between(head, [], s);
      Between(head, s, []);
      assert [] + s == s + [] == s;
    } else {
      var i :| 0 <= i < |s| && s[i] == x;
      Around(head, s[..i], x, s[i + 1..]);
      assert s == s[..i] + [x] + s[i + 1..];
    }
  }

  ghost function Some(x: Node?): set<Node> {
    if x == null then {} else {x}
  }

  /** OSAL_INIT_LIST_HEAD */
  method InitListHead(list: Node?)
    modifies list
    ensures list != null ==> IsList(list, [])
  {
    if list == null {
      return;
    }
    list.next := list;
    list.prev := list;
    assert [list] + [] + [list] == [list, list];
  }

  /** osal___list_add */
  method InsertBetween(cur: Node?, prev: Node?, next: Node?)
    requires cur != prev && cur != next
    modifies cur, Some(prev)`next, Some(next)`prev
    ensures cur != null && prev != null && next != null ==> Linked(prev, cur) && Linked(cur, next)
    ensures cur == null || prev == null || next == null ==>
              (prev != null ==> prev.next == old(prev.next)) && (next != null ==> next.prev == old(next.prev))
  {
    if cur == null || prev == null || next == null {
      return;
    }
    next.prev := cur;
    cur.next := next;
    cur.prev := prev;
    prev.next := cur;
  }

  /** osal_list_add */
  method ListAdd(cur: Node?, head: Node, ghost s: seq<Node>)
    requires IsList(head, s) && cur != head && cur !in s
    modifies cur, head`next, Some(head.next)`prev
    ensures if cur == null then IsList(head, s) else IsList(head, [cur] + s)
  {
    hide IsList, Path, Distinct;
    Between(head, [], s);
    assert [] + s == s && [head] + [] == [head];
    Gap(head, [], s);
    InsertBetween(cur, head, head.next);
    if cur == null {
      Between(head, [], s);
    } else {
      Around(head, [], cur, s);
      assert [] + [cur] + s == [cur] + s;
    }
  }

  /** osal_list_add_tail */
  method ListAddTail(cur: Node?, head: Node, ghost s: seq<Node>)
    requires IsList(head, s) && cur != head && cur !in s
    modifies cur, Some(head.prev)`next, head`prev
    ensures if cur == null then IsList(head, s) else IsList(head, s + [cur])
  {
    hide IsList, Path, Distinct;
    Between(head, s, []);
    assert s + [] == s && [] + [head] == [head];
    Gap(head, s, []);
    InsertBetween(cur, head.prev, head);
    if cur == null {
      Between(head, s, []);
    } else {
      Around(head, s, cur, []);
      assert s + [cur] + [] == s + [cur];
    }
  }

  /** osal___list_del */
  method Unlink(prev: Node?, next: Node?)
    modifies Some(prev)`next, Some(next)`prev
    ensures prev != null && next != null ==> Linked(prev, next)
    ensures prev == null || next == null ==>
              (prev != null ==> prev.next == old(prev.next)) && (next != null ==> next.prev == old(next.prev))
  {
    if prev == null || next == null {
      return;
    }
    next.prev := prev;
    prev.next := next;
  }

  /** osal___list_del_entry, for an entry of a list, which keeps its own links */
  method DelEntry(entry: Node?, ghost head: Node, ghost a: seq<Node>, ghost b: seq<Node>)
    requires entry != null ==> IsList(head, a + [entry] + b)
    modifies if entry == null then {} else Some(entry.prev)`next, if entry == null then {} else Some(entry.next)`prev
    ensures entry != null ==> IsList(head, a + b) && entry !in [head] + a + b
  {
    hide IsList, Path, Distinct;
    if entry == null {
      return;
    }
    Around(head, a, entry, b);
    Gap(head, a, b);
    Unlink(entry.prev, entry.next);
    Between(head, a, b);
  }

  /** osal_list_del; what the two poison addresses refer to is never followed. */
  method ListDel(entry: Node?, poison1: Node?, poison2: Node?, ghost head: Node, ghost a: seq<Node>, ghost b: seq<Node>)
    requires entry != null ==> IsList(head, a + [entry] + b)
    modifies entry, if entry == null then {} else Some(entry.prev)`next, if entry == null then {} else Some(entry.next)`prev
    ensures entry != null ==> IsList(head, a + b) && entry.next == poison1 && entry.prev == poison2
  {
    hide IsList, Path, Distinct;
    if entry == null {
      return;
    }
    Around(head, a, entry, b);
    Gap(head, a, b);
    Unlink(entry.prev, entry.next);
    entry.next := poison1;
    entry.prev := poison2;
    Between(head, a, b);
  }

  /** osal_list_del_init */
  method ListDelInit(entry: Node, ghost head: Node, ghost a: seq<Node>, ghost b: seq<Node>)
    requires IsList(head, a + [entry] + b)
    modifies entry, Some(entry.prev)`next, Some(entry.next)`prev
    ensures IsList(head, a + b) && IsList(entry, [])
  {
    hide IsList, Path, Distinct;
    Around(head, a, entry, b);
    Gap(head, a, b);
    Unlink(entry.prev, entry.next);
    InitListHead(entry);
    Between(head, a, b);
  }

  /** osal_list_replace: the new node takes the place of the other one, be that a head or an entry. */
  method ListReplace(was: Node, cur: Node, ghost s: seq<Node>)
    requires IsList(was, s) && cur != was && cur !in s
    modifies cur, Some(was.next)`prev, Some(was.prev)`next
    ensures IsList(cur, s)
  {
    hide IsList, Path, Distinct;
    Ends(was, s);
    if s != [] { OuterLinks(s); }
    cur.next := was.next;
    cur.next.prev := cur;
    cur.prev := was.prev;
    cur.prev.next := cur;
    Ends(cur, s);
  }

  /** A list as the path of its entries and the links at its head. */
  lemma Ends(head: Node, s: seq<Node>)
    ensures IsList(head, s) <==>
              && Distinct(s) && head !in s
              && if s == [] then Linked(head, head) else Path(s) && Linked(head, s[0]) && Linked(s[|s| - 1], head)
  {
    hide Path, Linked, Distinct;
    DistinctCat([head], s);
    DistinctOne(head);
    Single(head);
    if s == [] {
      assert [head] + s + [head] == [head] + [head] && [head] + s == [head];
      Cat([head], [head]);
    } else {
      Cat([head] + s, [head]);
      Cat([head], s);
    }
  }

  lemma OuterLinks(s: seq<Node>)
    requires Distinct(s) && s != []
    ensures s[0] !in s[1..] && s[|s| - 1] !in s[..|s| - 1]
    ensures forall x :: x in s[1..] || x in s[..|s| - 1] ==> x in s
  {
  }

  /** osal_list_replace_init */
  method ListReplaceInit(was: Node, cur: Node, ghost s: seq<Node>)
    requires IsList(was, s) && cur != was && cur !in s
    modifies was, cur, Some(was.next)`prev, Some(was.prev)`next
    ensures IsList(cur, s) && IsList(was, [])
  {
    hide IsList;
    NotInside(was, s);
    ListReplace(was, cur, s);
    InitListHead(was);
  }

  lemma NotInside(head: Node, s: seq<Node>)
    requires IsList(head, s)
    ensures head !in s
  {
    hide Path;
    Ends(head, s);
  }

  lemma Neighbours(head: Node, s: seq<Node>)
    requires IsList(head, s)
    ensures head.next != null && (head.next == head || head.next in s)
    ensures head.prev != null && (head.prev == head || head.prev in s)
  {
    hide Path, IsList, Distinct;
    Ends(head, s);
  }

  /** osal_list_move: to the front of this list or of another one. */
  method ListMove(entry: Node, head: Node, ghost from: Node, ghost a: seq<Node>, ghost b: seq<Node>, ghost s: seq<Node>)
    requires IsList(from, a + [entry] + b)
    requires if head == from then s == a + b else IsList(head, s) && Apart([from] + a + [entry] + b, [head] + s)
    modifies entry, from, head, a, b, s
    ensures IsList(head, [entry] + s) && (head != from ==> IsList(from, a + b))
  {
    hide IsList, Path, Distinct;
    EntryNeighbours(from, a, entry, b);
    if head != from { ApartParts(from, a, entry, b, head, s); }
    DelEntry(entry, from, a, b);
    assert head != from ==> forall x :: x == head || x in s ==> x.next == old(x.next) && x.prev == old(x.prev);
    Neighbours(head, s);
    label deleted:
    ListAdd(entry, head, s);
    assert head != from ==>
      forall x :: x == from || x in a + b ==> x.next == old@deleted(x.next) && x.prev == old@deleted(x.prev);
  }

  /** osal_list_move_tail */
  method ListMoveTail(entry: Node, head: Node, ghost from: Node, ghost a: seq<Node>, ghost b: seq<Node>, ghost s: seq<Node>)
    requires IsList(from, a + [entry] + b)
    requires if head == from then s == a + b else IsList(head, s) && Apart([from] + a + [entry] + b, [head] + s)
    modifies entry, from, head, a, b, s
    ensures IsList(head, s + [entry]) && (head != from ==> IsList(from, a + b))
  {
    hide IsList, Path, Distinct;
    EntryNeighbours(from, a, entry, b);
    if head != from { ApartParts(from, a, entry, b, head, s); }
    DelEntry(entry, from, a, b);
    assert head != from ==> forall x :: x == head || x in s ==> x.next == old(x.next) && x.prev == old(x.prev);
    Neighbours(head, s);
    label deleted:
    ListAddTail(entry, head, s);
    assert head != from ==>
      forall x :: x == from || x in a + b ==> x.next == old@deleted(x.next) && x.prev == old@deleted(x.prev);
  }

  lemma ApartParts(from: Node, a: seq<Node>, e: Node, b: seq<Node>, head: Node, s: seq<Node>)
    requires Apart([from] + a + [e] + b, [head] + s)
    ensures from != head && from !in s && e != head && e !in s
    ensures forall x :: x in a || x in b ==> x != head && x !in s
  {
    var p, q := [from] + a + [e] + b, [head] + s;
    assert from in p && e in p && head in q;
    assert forall x :: x in s ==> x in q;
    assert forall x :: x in a || x in b ==> x in p;
  }

  lemma EntryNeighbours(head: Node, a: seq<Node>, e: Node, b: seq<Node>)
    requires IsList(head, a + [e] + b)
    ensures e.next != null && e.prev != null && (e.next == head || e.next in b) && (e.prev == head || e.prev in a)
    ensures e != head && e !in a && e !in b
  {
    hide Path, IsList, Distinct;
    Around(head, a, e, b);
  }

  /** osal_list_empty */
  method ListEmpty(head: Node?, ghost s: seq<Node>) returns (r: int)
    requires head != null ==> IsList(head, s)
    ensures r == if head == null then -1 else if s == [] then 1 else 0
  {
    hide Path, IsList, Distinct;
    if head == null {
      return -1;
    }
    Ends(head, s);
    return if head.next == head then 1 else 0;
  }

  /** osal_list_is_singular */
  method ListIsSingular(head: Node, ghost s: seq<Node>) returns (r: bool)
    requires IsList(head, s)
    ensures r <==> |s| == 1
  {
    hide Path, IsList;
    Ends(head, s);
    var empty := ListEmpty(head, s);
    return empty == 0 && head.next == head.prev;
  }

  ghost function Rotated(s: seq<Node>, n: nat): seq<Node>
    requires n <= |s|
  {
    s[n..] + s[..n]
  }

  /** osal_list_rotate_left */
  method ListRotateLeft(head: Node, ghost s: seq<Node>)
    requires IsList(head, s)
    modifies head, s
    ensures IsList(head, if s == [] then [] else s[1..] + [s[0]])
  {
    hide Path, IsList, Distinct;
    Ends(head, s);
    var empty := ListEmpty(head, s);
    if empty == 0 {
      var first := head.next;
      assert s == [] + [first] + s[1..] && [] + s[1..] == s[1..];
      ListMoveTail(first, head, head, [], s[1..], s[1..]);
    }
  }

  /** As many rotations as there are entries change nothing. */
  method RotateAround(head: Node, ghost s: seq<Node>, n: nat)
    requires IsList(head, s) && n == |s|
    modifies head, s
    ensures IsList(head, s)
  {
    hide Path, IsList, Distinct;
    assert Rotated(s, 0) == s;
    for i := 0 to n
      invariant IsList(head, Rotated(s, i))
    {
      ghost var r := Rotated(s, i);
      assert forall x :: x in r ==> x in s;
      assert r[1..] + [r[0]] == Rotated(s, i + 1);
      ListRotateLeft(head, r);
    }
    assert Rotated(s, n) == s;
  }

  /** osal_list_cut_position: an empty list is not cut, and `list` stays what it was. */
  method ListCutPosition(list: Node, head: Node, entry: Node, ghost s: seq<Node>, ghost k: nat)
    requires IsList(head, s) && list != head && list !in s && list != entry
    requires entry == head || (k < |s| && entry == s[k]) || (|s| <= 1 && entry !in s)
    modifies list, head, s
    ensures s == [] || (|s| == 1 && entry != head && entry != s[0]) ==>
              IsList(head, s) && list.next == old(list.next) && list.prev == old(list.prev)
    ensures s != [] && entry == head ==> IsList(head, s) && IsList(list, [])
    ensures k < |s| && entry == s[k] ==> IsList(list, s[..k + 1]) && IsList(head, s[k + 1..])
  {
    hide Path, IsList, Distinct;
    NotInside(head, s);
    var empty := ListEmpty(head, s);
    if empty != 0 {
      return;
    }
    var singular := ListIsSingular(head, s);
    Ends(head, s);
    if singular && head.next != entry && head != entry {
      return;
    }
    if entry == head {
      InitListHead(list);
    } else {
      Cut(list, head, entry, s, k);
    }
  }

  /** osal___list_cut_position */
  method Cut(list: Node, head: Node, entry: Node, ghost s: seq<Node>, ghost k: nat)
    requires IsList(head, s) && list != head && list !in s && k < |s| && entry == s[k]
    modifies list, head, s
    ensures IsList(list, s[..k + 1]) && IsList(head, s[k + 1..])
  {
    hide Path, IsList, Distinct;
    ghost var p, q := s[..k + 1], s[k + 1..];
    Ends(head, s);
    assert s == p + q && p[|p| - 1] == entry && p[0] == s[0];
    DistinctCat(p, q);
    OuterLinks(p);
    if q != [] {
      Cat(p, q);
      OuterLinks(q);
      assert q[0] in q && q[0] !in p && p[0] !in q && entry !in q;
    }
    assert p[0] in p && entry in p;
    if q == [] { assert p == s; }
    var newFirst := entry.next;
    assert newFirst == (if q == [] then head else q[0]) && newFirst !in p && newFirst != list;
    list.next := head.next;
    list.next.prev := list;
    list.prev := entry;
    entry.next := list;
    head.next := newFirst;
    newFirst.prev := head;
    assert Path(p) && Linked(list, p[0]) && Linked(entry, list);
    Ends(list, p);
    Ends(head, q);
  }

  /** osal___list_splice: the entries of list go between a and b. */
  method SpliceBetween(list: Node, ghost l: seq<Node>, prev: Node, next: Node,
                       ghost head: Node, ghost a: seq<Node>, ghost b: seq<Node>)
    requires IsList(list, l) && l != [] && IsList(head, a + b) && Apart([list] + l, [head] + a + b)
    requires prev == ([head] + a)[|a|] && next == (b + [head])[0]
    modifies head, a, b, l
    ensures IsList(head, a + l + b)
  {
    hide Path, IsList, Distinct;
    Ends(list, l);
    OuterLinks(l);
    Between(head, a, b);
    Gap(head, a, b);
    SpliceApart(list, l, head, a, b);
    assert forall x :: x in (b + [head])[1..] || x in (b + [head])[..|b|] ==> x !in l;
    assert l[0] in l && l[|l| - 1] in l;
    var first := list.next;
    var last := list.prev;
    first.prev := prev;
    prev.next := first;
    last.next := next;
    next.prev := last;
    Assemble(head, a, l, b);
  }

  lemma SpliceApart(list: Node, l: seq<Node>, head: Node, a: seq<Node>, b: seq<Node>)
    requires Apart([list] + l, [head] + a + b)
    ensures Apart([head] + a, l) && Apart(l, b) && Apart(l, [head] + a) && Apart(b, l)
    ensures list !in [head] + a && list !in b && head !in l
  {
    forall x | x == list || x in l ensures x !in [head] + a && x !in b {
      assert x in [list] + l;
      assert forall y :: y in [head] + a || y in b ==> y in [head] + a + b;
    }
    assert head in [head] + a;
  }

  lemma Assemble(head: Node, a: seq<Node>, l: seq<Node>, b: seq<Node>)
    requires l != [] && Path([head] + a) && Path(l) && Path(b + [head])
    requires Linked(([head] + a)[|a|], l[0]) && Linked(l[|l| - 1], (b + [head])[0])
    requires Distinct([head] + a) && Distinct(b) && Distinct(l) && Apart([head] + a, b) && Apart([head] + a, l) && Apart(l, b)
    ensures IsList(head, a + l + b)
  {
    hide Path, Distinct, Linked;
    Cat(l, b + [head]);
    Cat([head] + a, l + (b + [head]));
    assert [head] + (a + l + b) + [head] == ([head] + a) + (l + (b + [head]));
    DistinctCat(l, b);
    DistinctCat([head] + a, l + b);
    assert [head] + (a + l + b) == ([head] + a) + (l + b);
  }

  /** osal_list_splice: list is left with stale links. */
  method ListSplice(list: Node, head: Node, ghost l: seq<Node>, ghost s: seq<Node>)
    requires IsList(list, l) && IsList(head, s) && Apart([list] + l, [head] + s)
    modifies head, s, l
    ensures IsList(head, l + s) && (l == [] ==> IsList(list, []))
  {
    hide Path, IsList, Distinct;
    var empty := ListEmpty(list, l);
    assert [] + s == s && [] + l + s == l + s && [head] + [] + s == [head] + s;
    if empty == 0 {
      Between(head, [], s);
      SpliceBetween(list, l, head, head.next, head, [], s);
    }
  }

  /** osal_list_splice_tail */
  method ListSpliceTail(list: Node, head: Node, ghost l: seq<Node>, ghost s: seq<Node>)
    requires IsList(list, l) && IsList(head, s) && Apart([list] + l, [head] + s)
    modifies head, s, l
    ensures IsList(head, s + l) && (l == [] ==> IsList(list, []))
  {
    hide Path, IsList, Distinct;
    var empty := ListEmpty(list, l);
    assert s + [] == s && s + l + [] == s + l && [head] + s + [] == [head] + s;
    if empty == 0 {
      Between(head, s, []);
      SpliceBetween(list, l, head.prev, head, head, s, []);
    }
  }

  lemma NotIn(list: Node, l: seq<Node>, head: Node, s: seq<Node>)
    requires Apart([list] + l, [head] + s)
    ensures list !in [head] + s
  {
    assert list in [list] + l;
  }

  /** osal_list_splice_init */
  method ListSpliceInit(list: Node, head: Node, ghost l: seq<Node>, ghost s: seq<Node>)
    requires IsList(list, l) && IsList(head, s) && Apart([list] + l, [head] + s)
    modifies list, head, s, l
    ensures IsList(head, l + s) && IsList(list, [])
  {
    hide Path, IsList, Distinct;
    NotInside(list, l);
    var empty := ListEmpty(list, l);
    ListSplice(list, head, l, s);
    if empty == 0 {
      assert forall x :: x in [head] + s || x in l ==> x != list by { NotIn(list, l, head, s); }
      InitListHead(list);
    }
  }

  /** osal_list_splice_tail_init */
  method ListSpliceTailInit(list: Node, head: Node, ghost l: seq<Node>, ghost s: seq<Node>)
    requires IsList(list, l) && IsList(head, s) && Apart([list] + l, [head] + s)
    modifies list, head, s, l
    ensures IsList(head, s + l) && IsList(list, [])
  {
    hide Path, IsList, Distinct;
    NotInside(list, l);
    var empty := ListEmpty(list, l);
    ListSpliceTail(list, head, l, s);
    if empty == 0 {
      assert forall x :: x in [head] + s || x in l ==> x != list by { NotIn(list, l, head, s); }
      InitListHead(list);
    }
  }

  /** What was cut off is put back. */
  method CutAndSplice(list: Node, head: Node, entry: Node, ghost s: seq<Node>, ghost k: nat)
    requires IsList(head, s) && list != head && list !in s && k < |s| && entry == s[k]
    modifies list, head, s
    ensures IsList(head, s) && IsList(list, [])
  {
    hide Path, IsList, Distinct;
    ghost var p, q := s[..k + 1], s[k + 1..];
    assert s == p + q;
    Ends(head, s);
    DistinctCat(p, q);
    ListCutPosition(list, head, entry, s, k);
    ListSpliceInit(list, head, p, q);
  }
}
