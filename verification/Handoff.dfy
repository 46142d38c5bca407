/**
 The list of executable images that the boot loader hands off to, linked through the descriptor
 array from the first image to run. A failed assertion ends the run.
 */
module Handoff {
  import opened Basics
  import opened DepGraph

  const INVALID: nat := 0xFFFF_FFFF

  datatype Ref = Null | To(index: nat)

  datatype Desc = Desc(imageId: nat, executable: bool, firstExe: bool, next: nat)

  /** The node of the list that a descriptor has room for. */
  datatype Node = Node(imageId: nat, next: Ref)

  datatype Outcome = NoImages | Built | Halted

  /** The first descriptor of an image, or -1. */
  ghost function Index(descs: seq<Desc>, id: nat, from: nat): (i: int)
    requires from <= |descs|
    ensures i == -1 || (from <= i < |descs| && descs[i].imageId == id)
    ensures forall k :: from <= k < (if i == -1 then |descs| else i) ==> descs[k].imageId != id
    decreases |descs| - from
  {
    if from == |descs| then -1 else if descs[from].imageId == id then from else Index(descs, id, from + 1)
  }

  predicate Starts(d: Desc) { d.executable && d.firstExe }

  /** Where the list starts: the first descriptor to run. */
  ghost predicate IsStart(descs: seq<Desc>, start: int) {
    0 <= start < |descs| && Starts(descs[start]) && forall k :: 0 <= k < start ==> !Starts(descs[k])
  }

  /** Executable images, each handing off to the next. */
  ghost predicate IsWalk(descs: seq<Desc>, p: seq<nat>) {
    && p != [] && IsStart(descs, p[0])
    && (forall k :: 0 <= k < |p| ==> p[k] < |descs| && descs[p[k]].executable)
    && (forall k {:trigger p[k]} :: 0 <= k < |p| - 1 ==> HandsOff(descs, p[k], p[k + 1]))
  }

  ghost predicate HandsOff(descs: seq<Desc>, i: nat, j: int) {
    i < |descs| && descs[i].next != INVALID && j == Index(descs, descs[i].next, 0) && j > 0
  }

  /** A walk that ends at an image without a successor. */
  ghost predicate IsChain(descs: seq<Desc>, c: seq<nat>) {
    IsWalk(descs, c) && descs[c[|c| - 1]].next == INVALID
  }

  lemma WalkStep(descs: seq<Desc>, c: seq<nat>, k: nat)
    requires IsWalk(descs, c) && k + 1 < |c|
    ensures HandsOff(descs, c[k], c[k + 1]) && c[k] < |descs| && descs[c[k]].next != INVALID
  {
    hide Index, IsStart;
  }

  lemma HandsOffToOne(descs: seq<Desc>, i: nat, j: int, j': int)
    requires HandsOff(descs, i, j) && HandsOff(descs, i, j')
    ensures j == j'
  {
    hide Index;
  }

  lemma StartUnique(descs: seq<Desc>, i: nat, j: nat)
    requires IsStart(descs, i) && IsStart(descs, j)
    ensures i == j
  {
  }

  lemma WalkStart(descs: seq<Desc>, p: seq<nat>, c: seq<nat>)
    requires IsWalk(descs, p) && IsWalk(descs, c)
    ensures p != [] && c != [] && p[0] == c[0]
  {
    hide HandsOff, IsStart;
    StartUnique(descs, p[0], c[0]);
  }

  /** Whatever walk there is, a chain begins with it. */
  lemma {:induction false} WalkIsPrefix(descs: seq<Desc>, p: seq<nat>, c: seq<nat>, n: nat)
    requires IsWalk(descs, p) && IsChain(descs, c) && n <= |p|
    ensures n <= |c| && p[..n] == c[..n]
  {
    hide IsWalk, HandsOff;
    WalkStart(descs, p, c);
    if n > 1 {
      WalkIsPrefix(descs, p, c, n - 1);
      WalkStep(descs, p, n - 2);
      assert p[n - 2] == p[..n - 1][n - 2] == c[..n - 1][n - 2] == c[n - 2];
      assert n - 1 < |c|;
      WalkStep(descs, c, n - 2);
      HandsOffToOne(descs, c[n - 2], p[n - 1], c[n - 1]);
    }
  }

  /** Where a chain meets itself, it goes on with itself. */
  lemma {:induction false} Together(descs: seq<Desc>, c: seq<nat>, i: nat, j: nat, m: nat)
    requires IsWalk(descs, c) && i <= j && j + m < |c| && c[i] == c[j]
    ensures c[i + m] == c[j + m]
  {
    hide IsWalk, HandsOff;
    if m > 0 {
      Together(descs, c, i, j, m - 1);
      WalkStep(descs, c, i + m - 1);
      WalkStep(descs, c, j + m - 1);
      HandsOffToOne(descs, c[i + m - 1], c[i + m], c[j + m]);
    }
  }

  /** So a chain has no cycle, and no more entries than there are descriptors. */
  lemma ChainFits(descs: seq<Desc>, c: seq<nat>)
    requires IsChain(descs, c)
    ensures Distinct(c) && |c| <= |descs|
  {
    hide HandsOff, IsStart;
    forall i, j | 0 <= i < j < |c| ensures c[i] != c[j] {
      if c[i] == c[j] {
        Together(descs, c, i, j, |c| - 1 - j);
        WalkStep(descs, c, i + (|c| - 1 - j));
      }
    }
    DistinctFits(c, UpTo(|descs|));
  }

  ghost function UpTo(n: nat): (r: set<nat>)
    ensures |r| == n && forall k: nat :: k in r <==> k < n
  {
    if n == 0 then {} else UpTo(n - 1) + {n - 1}
  }

  /** A walk gets longer. */
  lemma WalkGrows(descs: seq<Desc>, p: seq<nat>, j: int)
    requires IsWalk(descs, p) && HandsOff(descs, p[|p| - 1], j) && j < |descs| && descs[j].executable
    ensures j >= 0 && IsWalk(descs, p + [j])
  {
    hide IsStart, Index;
    var q := p + [j];
    forall k {:trigger q[k]} | 0 <= k < |q| - 1 ensures HandsOff(descs, q[k], q[k + 1]) {
      if k < |p| - 1 { WalkStep(descs, p, k); }
    }
  }

  /** The chain, and whether its nodes were unlinked at first, all but the last. */
  ghost predicate Linkable(nodes: seq<Node>, c: seq<nat>) {
    forall k :: 0 <= k < |c| - 1 ==> c[k] < |nodes| && nodes[c[k]].next.Null?
  }

  /** The nodes of c are linked in this order and name their images. */
  ghost predicate LinkedAs(descs: seq<Desc>, nodes: seq<Node>, c: seq<nat>) {
    forall k :: 0 <= k < |c| ==>
      && c[k] < |nodes| && c[k] < |descs| && nodes[c[k]].imageId == descs[c[k]].imageId
      && (k < |c| - 1 ==> nodes[c[k]].next == To(c[k + 1]))
  }

  ghost function Front(p: seq<nat>): seq<nat> {
    if p == [] then [] else p[..|p| - 1]
  }

  ghost predicate Named(descs: seq<Desc>, nodes: seq<Node>, p: seq<nat>) {
    forall k :: 0 <= k < |p| ==> p[k] < |descs| && p[k] < |nodes| && nodes[p[k]].imageId == descs[p[k]].imageId
  }

  /** The nodes of p but the last are linked on, and were not linked before. */
  ghost predicate LinkedOn(links: seq<Node>, nodes: seq<Node>, p: seq<nat>) {
    forall k :: 0 <= k < |p| - 1 ==>
      p[k] < |links| && p[k] < |nodes| && links[p[k]].next.Null? && nodes[p[k]].next == To(p[k + 1])
  }

  /** Other nodes are linked as before. */
  ghost predicate Otherwise(links: seq<Node>, nodes: seq<Node>, front: seq<nat>)
    requires |links| == |nodes|
  {
    forall x :: 0 <= x < |nodes| && x !in front ==> nodes[x].next == links[x].next
  }

  /** What the second loop has done after the walk p. */
  ghost predicate Walked(descs: seq<Desc>, links: seq<Node>, nodes: seq<Node>, p: seq<nat>) {
    |nodes| == |links| == |descs| && Named(descs, nodes, p) && LinkedOn(links, nodes, p) && Otherwise(links, nodes, Front(p))
  }

  /** Where a walk is so far: at its start or handing off to j. */
  ghost predicate At(descs: seq<Desc>, p: seq<nat>, j: int) {
    if p == [] then IsStart(descs, j) else IsWalk(descs, p) && HandsOff(descs, p[|p| - 1], j)
  }

  lemma AtGrows(descs: seq<Desc>, p: seq<nat>, j: int)
    requires At(descs, p, j) && 0 <= j < |descs| && descs[j].executable
    ensures IsWalk(descs, p + [j])
  {
    if p != [] { WalkGrows(descs, p, j); }
  }

  /** If a chain exists, it goes on where the walk does. */
  lemma GoesOn(descs: seq<Desc>, p: seq<nat>, j: int, c: seq<nat>)
    requires At(descs, p, j) && IsChain(descs, c)
    ensures |p| < |c| && p == c[..|p|] && c[|p|] == j && j < |descs| && descs[j].executable
  {
    hide HandsOff;
    if p == [] {
      hide IsStart;
      StartUnique(descs, j, c[0]);
    } else {
      WalkIsPrefix(descs, p, c, |p|);
      assert p[..|p|] == p && p[|p| - 1] == c[..|p|][|p| - 1] == c[|p| - 1];
      HandsOffSomewhere(descs, p[|p| - 1], j);
      WalkStep(descs, c, |p| - 1);
      HandsOffToOne(descs, p[|p| - 1], j, c[|p|]);
    }
  }

  /** There is no chain if the walk cannot go on, or is as long as the array already. */
  lemma Stops(descs: seq<Desc>, p: seq<nat>, j: nat, c: seq<nat>)
    requires At(descs, p, j) && j < |descs| && (!descs[j].executable || |p| == |descs|)
    ensures !IsChain(descs, c)
  {
    hide HandsOff, IsWalk, IsStart, At;
    if IsChain(descs, c) {
      ChainFits(descs, c);
      GoesOn(descs, p, j, c);
    }
  }

  lemma HandsOffSomewhere(descs: seq<Desc>, i: nat, j: int)
    requires HandsOff(descs, i, j)
    ensures i < |descs| && descs[i].next != INVALID && j == Index(descs, descs[i].next, 0) > 0
  {
  }

  lemma LinkedOnTheWay(descs: seq<Desc>, links: seq<Node>, nodes: seq<Node>, p: seq<nat>, x: nat)
    requires Walked(descs, links, nodes, p) && p != [] && x in p[..|p| - 1]
    ensures x < |nodes| && nodes[x].next.To?
  {
    var front := p[..|p| - 1];
    var k :| 0 <= k < |front| && front[k] == x;
    assert nodes[p[k]].next == To(p[k + 1]);
  }

  /** The node after which the walk goes on is not linked yet, so it was not on the way before. */
  lemma LastIsNew(descs: seq<Desc>, links: seq<Node>, nodes: seq<Node>, p: seq<nat>)
    requires Walked(descs, links, nodes, p) && p != [] && p[|p| - 1] < |nodes| && nodes[p[|p| - 1]].next.Null?
    ensures p[|p| - 1] !in p[..|p| - 1] && links[p[|p| - 1]].next.Null?
  {
    if p[|p| - 1] in p[..|p| - 1] { LinkedOnTheWay(descs, links, nodes, p, p[|p| - 1]); }
  }

  function Write(descs: seq<Desc>, nodes: seq<Node>, last: nat, j: nat): seq<Node>
    requires |nodes| == |descs| && last < |nodes| && j < |nodes|
  {
    var named := nodes[j := nodes[j].(imageId := descs[j].imageId)];
    named[last := named[last].(next := To(j))]
  }

  lemma WriteAt(descs: seq<Desc>, nodes: seq<Node>, last: nat, j: nat, x: nat)
    requires |nodes| == |descs| && last < |nodes| && j < |nodes| && x < |nodes|
    ensures var ns := Write(descs, nodes, last, j);
      && |ns| == |nodes| && ns[x].imageId == (if x == j then descs[j].imageId else nodes[x].imageId)
      && ns[x].next == if x == last then To(j) else nodes[x].next
  {
  }

  lemma Linked(descs: seq<Desc>, links: seq<Node>, nodes: seq<Node>, p: seq<nat>, j: nat)
    requires Walked(descs, links, nodes, p) && p != [] && j < |descs| && p[|p| - 1] < |descs| && nodes[p[|p| - 1]].next.Null?
    ensures Walked(descs, links, Write(descs, nodes, p[|p| - 1], j), p + [j])
  {
    LastIsNew(descs, links, nodes, p);
    hide Write;
    var last, q, front := p[|p| - 1], p + [j], p[..|p| - 1];
    var ns := Write(descs, nodes, last, j);
    WriteAt(descs, nodes, last, j, last);
    assert Named(descs, ns, q) by {
      forall k | 0 <= k < |q| ensures q[k] < |descs| && q[k] < |ns| && ns[q[k]].imageId == descs[q[k]].imageId {
        WriteAt(descs, nodes, last, j, if k < |p| then p[k] else j);
      }
    }
    assert LinkedOn(links, ns, q) by {
      forall k | 0 <= k < |p| ensures q[k] < |links| && q[k] < |ns| && links[q[k]].next.Null? && ns[q[k]].next == To(q[k + 1]) {
        WriteAt(descs, nodes, last, j, p[k]);
        if k < |p| - 1 { assert front[k] == p[k] && p[k] in front; }
      }
    }
    assert Front(q) == p;
    forall x | 0 <= x < |ns| && x !in p ensures ns[x].next == links[x].next {
      assert last in p && x !in front;
      WriteAt(descs, nodes, last, j, x);
    }
  }

  lemma Started(descs: seq<Desc>, links: seq<Node>, nodes: seq<Node>, j: nat)
    requires Walked(descs, links, nodes, []) && j < |descs|
    ensures Walked(descs, links, nodes[j := nodes[j].(imageId := descs[j].imageId)], [j])
  {
  }

  /** A node on the way that is linked already: no chain over unlinked nodes. */
  lemma LinkedBefore(descs: seq<Desc>, links: seq<Node>, nodes: seq<Node>, p: seq<nat>, j: int, c: seq<nat>)
    requires Walked(descs, links, nodes, p) && p != [] && At(descs, p, j) && nodes[p[|p| - 1]].next != Null
    requires IsChain(descs, c)
    ensures !Linkable(links, c)
  {
    hide HandsOff, IsWalk, IsStart, At, IsChain;
    GoesOn(descs, p, j, c);
    ChainFits(descs, c);
    var k := |p| - 1;
    assert p[k] == c[..|p|][k] == c[k] && p[..k] == c[..k];
    NotBefore(c, k);
  }

  lemma NotBefore(s: seq<nat>, k: nat)
    requires Distinct(s) && k < |s|
    ensures s[k] !in s[..k]
  {
  }

  /** The loop ends at an image without a successor: the walk is the chain, and linked. */
  lemma Done(descs: seq<Desc>, links: seq<Node>, nodes: seq<Node>, p: seq<nat>)
    requires Walked(descs, links, nodes, p) && IsChain(descs, p)
    ensures Linkable(links, p) && LinkedAs(descs, nodes, p) && Distinct(p) && |p| <= |descs|
    ensures p != [] && p[|p| - 1] < |nodes| && p[|p| - 1] < |links|
    ensures nodes[p[|p| - 1]].next == links[p[|p| - 1]].next
  {
    hide HandsOff, IsStart;
    ChainFits(descs, p);
    NotBefore(p, |p| - 1);
  }

  lemma OneChain(descs: seq<Desc>, p: seq<nat>, c: seq<nat>)
    requires IsChain(descs, p) && IsChain(descs, c)
    ensures p == c
  {
    hide HandsOff, IsStart, IsWalk;
    WalkIsPrefix(descs, p, c, |p|);
    WalkIsPrefix(descs, c, p, |c|);
    assert p[..|p|] == p && c[..|c|] == c;
  }

  class Loader {
    const descs: seq<Desc>
    var nodes: array<Node>
    var head: Ref

    /** get_bl_params_node_index */
    method GetBlParamsNodeIndex(imageId: nat) returns (index: int)
      ensures index == Index(descs, imageId, 0)
    {
      for i := 0 to |descs|
        invariant Index(descs, imageId, 0) == Index(descs, imageId, i)
      {
        if descs[i].imageId == imageId {
          return i;
        }
      }
      return -1;
    }

    /** The chain of hand-offs exists, and its nodes are not linked yet. */
    ghost predicate CanBuild(links: seq<Node>)
    {
      exists c: seq<nat> :: IsChain(descs, c) && Linkable(links, c)
    }

    /** get_next_bl_params_from_mem_params_desc */
    method GetNextBlParams() returns (r: Outcome)
      requires nodes.Length == |descs| && head.Null?
      modifies this`head, nodes
      ensures r.NoImages? <==> descs == []
      ensures r.Built? <==> CanBuild(old(nodes[..]))
      ensures r.Built? ==> forall c: seq<nat> :: IsChain(descs, c) ==>
                head == To(c[0]) && LinkedAs(descs, nodes[..], c) && Distinct(c) && |c| <= |descs|
                && (old(nodes[c[|c| - 1]].next).Null? ==> nodes[c[|c| - 1]].next.Null?)
    {
      hide IsWalk, IsChain, HandsOff, Linkable, LinkedAs, Index;
      ghost var links := nodes[..];
      NoChainInNone();
      if |descs| == 0 {
        return NoImages;
      }
      var linkIndex := 0;
      var count := 0;
      while count < |descs|
        invariant count <= |descs| && head.Null? && linkIndex == 0
        invariant forall k :: 0 <= k < count ==> !Starts(descs[k])
      {
        if descs[count].executable && descs[count].firstExe {
          head := To(count);
          linkIndex := count;
          break;
        }
        count := count + 1;
      }
      if head.Null? {
        NoStartNoChain();
        return Halted;
      }
      assert IsStart(descs, linkIndex);
      r := LinkFrom(linkIndex);
    }

    lemma NoChainInNone()
      ensures descs == [] ==> forall c: seq<nat> :: !IsChain(descs, c)
    {
    }

    lemma NoStartNoChain()
      requires forall k :: 0 <= k < |descs| ==> !Starts(descs[k])
      ensures forall c: seq<nat> :: !IsChain(descs, c)
    {
      hide HandsOff;
    }

    /** The second loop: walks from the first image, linking each node to the next. */
    method LinkFrom(start: nat) returns (r: Outcome)
      requires nodes.Length == |descs| && IsStart(descs, start)
      modifies nodes
      ensures !r.NoImages? && (r.Built? <==> CanBuild(old(nodes[..])))
      ensures r.Built? ==> forall c: seq<nat> :: IsChain(descs, c) ==>
                c != [] && start == c[0] && LinkedAs(descs, nodes[..], c) && Distinct(c) && |c| <= |descs|
                && (old(nodes[c[|c| - 1]].next).Null? ==> nodes[c[|c| - 1]].next.Null?)
    {
      hide IsWalk, IsChain, HandsOff, Linkable, LinkedAs, Index, IsStart, Walked, At;
      ghost var links := nodes[..];
      ghost var p: seq<nat> := [];
      var linkIndex: int := start;
      var last := -1;
      var count := 0;
      Nothing(links, start);
      while count < |descs|
        invariant count == |p| <= |descs| && 0 <= linkIndex < |descs| && At(descs, p, linkIndex)
        invariant last == (if p == [] then -1 else p[|p| - 1]) && last < |descs|
        invariant Walked(descs, links, nodes[..], p)
      {
        if !descs[linkIndex].executable {
          forall c: seq<nat> ensures !IsChain(descs, c) { Stops(descs, p, linkIndex, c); }
          return Halted;
        }
        ghost var ns := nodes[..];
        AtGrows(descs, p, linkIndex);
        nodes[linkIndex] := nodes[linkIndex].(imageId := descs[linkIndex].imageId);
        if last != -1 {
          if !nodes[last].next.Null? {
            assert nodes[last].next == ns[last].next;
            forall c: seq<nat> | IsChain(descs, c) ensures !Linkable(links, c) {
              LinkedBefore(descs, links, ns, p, linkIndex, c);
            }
            return Halted;
          }
          Linked(descs, links, ns, p, linkIndex);
          ghost var named := ns[linkIndex := ns[linkIndex].(imageId := descs[linkIndex].imageId)];
          nodes[last] := nodes[last].(next := To(linkIndex));
          assert nodes[..] == named[last := named[last].(next := To(linkIndex))] == Write(descs, ns, last, linkIndex);
        } else {
          Started(descs, links, ns, linkIndex);
          assert p == [] && [] + [linkIndex] == [linkIndex];
          assert nodes[..] == ns[linkIndex := ns[linkIndex].(imageId := descs[linkIndex].imageId)];
        }
        p := p + [linkIndex];
        assert Walked(descs, links, nodes[..], p);
        last := linkIndex;
        var imageId := descs[linkIndex].next;
        if imageId == INVALID {
          IsNowChain(p);
          StartsAt(p, start);
          Done(descs, links, nodes[..], p);
          forall c: seq<nat> | IsChain(descs, c) ensures c == p { OneChain(descs, p, c); }
          return Built;
        }
        linkIndex := GetBlParamsNodeIndex(imageId);
        if !(linkIndex > 0) {
          forall c: seq<nat> ensures !IsChain(descs, c) { NowhereToGo(p, c); }
          return Halted;
        }
        HandsOn(p, linkIndex);
        count := count + 1;
      }
      forall c: seq<nat> ensures !IsChain(descs, c) { Stops(descs, p, linkIndex, c); }
      return Halted;
    }

    lemma Nothing(links: seq<Node>, start: nat)
      requires |links| == |descs| && IsStart(descs, start)
      ensures Walked(descs, links, links, []) && At(descs, [], start) && start < |descs|
    {
    }

    lemma StartsAt(p: seq<nat>, start: nat)
      requires IsWalk(descs, p) && IsStart(descs, start)
      ensures p != [] && p[0] == start
    {
      hide IsStart, HandsOff;
      StartUnique(descs, p[0], start);
    }

    lemma IsNowChain(p: seq<nat>)
      requires IsWalk(descs, p) && p != [] && p[|p| - 1] < |descs| && descs[p[|p| - 1]].next == INVALID
      ensures IsChain(descs, p)
    {
    }

    lemma HandsOn(p: seq<nat>, j: int)
      requires IsWalk(descs, p) && p != [] && p[|p| - 1] < |descs| && descs[p[|p| - 1]].next != INVALID
      requires j == Index(descs, descs[p[|p| - 1]].next, 0) > 0
      ensures At(descs, p, j) && j < |descs|
    {
    }

    lemma NowhereToGo(p: seq<nat>, c: seq<nat>)
      requires IsWalk(descs, p) && p != [] && p[|p| - 1] < |descs| && descs[p[|p| - 1]].next != INVALID
      requires Index(descs, descs[p[|p| - 1]].next, 0) <= 0
      ensures !IsChain(descs, c)
    {
      hide IsStart, Index, IsWalk;
      if IsChain(descs, c) {
        WalkIsPrefix(descs, p, c, |p|);
        assert p[..|p|] == p && p[|p| - 1] == c[..|p|][|p| - 1] == c[|p| - 1];
        if |p| < |c| {
          WalkStep(descs, c, |p| - 1);
        }
      }
    }
  }
}
