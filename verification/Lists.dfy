/** Lists that grow by what they do not have yet. */
module Lists {
  import opened Basics

  function IndexOf(s: seq<nat>, p: nat): (k: nat)
    requires p in s
    ensures k < |s| && s[k] == p && forall j :: 0 <= j < k ==> s[j] != p
  {
    if s[0] == p then 0 else 1 + IndexOf(s[1..], p)
  }

  /** The list with the members of another one behind it, each that is not there yet, in turn. */
  function Joined(s: seq<nat>, list: seq<nat>): seq<nat> {
    if list == [] then s
    else
      var r, d := Joined(s, list[..|list| - 1]), list[|list| - 1];
      if d in r then r else r + [d]
  }

  lemma JoinedGrows(s: seq<nat>, list: seq<nat>, k: nat)
    requires k < |list|
    ensures Joined(s, list[..k + 1])
         == var r := Joined(s, list[..k]); if list[k] in r then r else r + [list[k]]
  {
    assert list[..k + 1][..k] == list[..k];
  }

  lemma JoinedNone(s: seq<nat>, list: seq<nat>)
    ensures Joined(s, list[..0]) == s
  {
  }

  /** The old list is in front, behind it is what it did not have, once, in the order of the first occurrences. */
  lemma {:induction false} JoinedMeans(s: seq<nat>, list: seq<nat>)
    ensures var r := Joined(s, list);
      && s <= r && (Distinct(s) ==> Distinct(r)) && (forall d :: d in r <==> d in s || d in list)
      && (forall i :: |s| <= i < |r| ==> r[i] in list && r[i] !in s)
      && (forall i, j :: |s| <= i < j < |r| ==> r[i] in list && r[j] in list && IndexOf(list, r[i]) < IndexOf(list, r[j]))
  {
    if list != [] {
      var front, d := list[..|list| - 1], list[|list| - 1];
      JoinedMeans(s, front);
      assert list == front + [d];
      var r := Joined(s, front);
      assert Joined(s, list) == if d in r then r else r + [d];
      hide Joined, IndexOf;
      forall x | x in front ensures IndexOf(list, x) == IndexOf(front, x) {
        IndexInFront(front, [d], x);
      }
      if d !in r {
        IndexBehind(front, [d], d);
        assert IndexOf([d], d) == 0;
      }
    }
  }

  lemma JoinedHas(s: seq<nat>, list: seq<nat>)
    ensures forall k :: 0 <= k < |list| ==> list[k] in Joined(s, list)
  {
    JoinedMeans(s, list);
    hide Joined;
    assert forall k :: 0 <= k < |list| ==> list[k] in list;
  }

  lemma IndexIs(s: seq<nat>, x: nat, k: nat)
    requires k < |s| && s[k] == x && forall j :: 0 <= j < k ==> s[j] != x
    ensures IndexOf(s, x) == k
  {
    hide IndexOf;
    assert x in s;
  }

  lemma IndexInFront(a: seq<nat>, b: seq<nat>, x: nat)
    requires x in a
    ensures IndexOf(a + b, x) == IndexOf(a, x)
  {
    hide IndexOf;
    assert forall j :: 0 <= j < |a| ==> (a + b)[j] == a[j];
    IndexIs(a + b, x, IndexOf(a, x));
  }

  lemma IndexBehind(a: seq<nat>, b: seq<nat>, x: nat)
    requires x !in a && x in b
    ensures IndexOf(a + b, x) == |a| + IndexOf(b, x)
  {
    hide IndexOf;
    var i := IndexOf(b, x);
    forall j | 0 <= j < |a| + i ensures (a + b)[j] != x {
      if j < |a| {
        assert a[j] in a;
      } else {
        assert b[j - |a|] != x;
      }
    }
    IndexIs(a + b, x, |a| + i);
  }

  lemma {:induction false} JoinedConcat(s: seq<nat>, a: seq<nat>, b: seq<nat>)
    ensures Joined(Joined(s, a), b) == Joined(s, a + b)
  {
    if b == [] {
      assert a + b == a;
    } else {
      JoinedConcat(s, a, b[..|b| - 1]);
      assert (a + b)[..|a + b| - 1] == a + b[..|b| - 1];
    }
  }
}
