/**
 The firmware-update service of BL1: images are copied block by block, authenticated, executed and
 reset by calls from either world. A failed assertion or a panic halts the run; what the platform
 answers (is memory mapped, does the image authenticate) is any answer.
 */
module Fwu {
  type Id = nat

  type Byte = b: nat | b < 0x100

  type Memory = nat -> Byte

  datatype State = Reset | Copying | Copied | Authenticated | Executed | Interrupted

  /** What the platform says of an image. */
  datatype Attr = Attr(secure: bool, executable: bool, base: nat, max: nat)

  datatype Desc = Desc(state: State, size: nat, copied: nat)

  datatype Ref = Invalid | Image(id: Id)

  datatype World = Secure | Normal

  datatype Status = Success | EPerm | ENoMem | EAuth

  /** What happens next: a call with its arguments and what the platform answers, or a write by the world that runs. */
  datatype Call =
    | Copy(id: Id, src: nat, block: nat, size: nat, mapped: bool, preLoad: bool)
    | Auth(id: Id, src: nat, size: nat, mapped: bool, genuine: bool, postLoad: bool)
    | Execute(id: Id)
    | Resume
    | Done
    | ResetImage(id: Id)
    | Store(at: nat, bytes: seq<Byte>)

  const U32: nat := 0x1_0000_0000
  const U64: nat := 0x1_0000_0000_0000_0000

  type Attrs = map<Id, Attr>
  type Descs = map<Id, Desc>

  ghost predicate Covers(attrs: Attrs, descs: Descs) {
    attrs.Keys == descs.Keys && forall i :: i in attrs ==> attrs[i].base < U64 && attrs[i].base + attrs[i].max <= U64
  }

  /** An image, where `via` says that it was copied since its last reset and `au` that it was authenticated since. */
  ghost predicate DescOk(a: Attr, d: Desc, via: bool, au: bool) {
    && (d.state.Copying? || d.state.Copied? ==> via)
    && (via ==> a.secure && !d.state.Reset? && 0 < d.copied <= d.size <= a.max && (d.state.Copying? <==> d.copied < d.size))
    && (!a.secure ==> d.copied == 0) && d.size < U32
    && (a.secure && (d.state.Authenticated? || d.state.Executed? || d.state.Interrupted?) ==> au)
  }

  ghost predicate ImagesOk(attrs: Attrs, descs: Descs, via: set<Id>, authed: set<Id>)
    requires attrs.Keys == descs.Keys
  {
    && via <= attrs.Keys
    && forall i :: i in attrs ==> DescOk(attrs[i], descs[i], i in via, i in authed)
  }

  predicate Disjoint(base0: nat, size0: nat, base1: nat, size1: nat) {
    base0 + size0 <= base1 || base1 + size1 <= base0
  }

  /** Copied images do not overlap. */
  ghost predicate Apart(attrs: Attrs, descs: Descs, via: set<Id>)
    requires attrs.Keys == descs.Keys && via <= attrs.Keys
  {
    forall i, j :: i in via && j in via && i != j ==> Disjoint(attrs[i].base, descs[i].size, attrs[j].base, descs[j].size)
  }

  ghost predicate OneSlotEach(s: seq<Ref>) {
    forall i, j :: 0 <= i < j < |s| && s[i].Image? ==> s[i] != s[j]
  }

  /** Every slot of the table names another image, and every secure image that is not reset has one. */
  ghost predicate TableOk(attrs: Attrs, descs: Descs, s: seq<Ref>)
    requires attrs.Keys == descs.Keys
  {
    && OneSlotEach(s)
    && (forall r :: r in s && r.Image? ==> r.id in attrs)
    && (forall i :: i in attrs && attrs[i].secure && !descs[i].state.Reset? ==> Image(i) in s)
  }

  /** A secure image is executed exactly when the secure world runs, and it is the recorded one. */
  ghost predicate WorldOk(attrs: Attrs, descs: Descs, secExec: Ref, world: World)
    requires attrs.Keys == descs.Keys
  {
    && (forall i :: i in attrs && attrs[i].secure ==> (descs[i].state.Executed? <==> world.Secure? && secExec == Image(i)))
    && (secExec.Image? ==> secExec.id in attrs && attrs[secExec.id].secure && attrs[secExec.id].executable)
    && (world.Secure? ==> secExec.Image?)
  }

  predicate Holds(mem: Memory, base: nat, bytes: seq<Byte>) {
    forall k {:trigger bytes[k]} :: 0 <= k < |bytes| ==> mem(base + k) == bytes[k]
  }

  predicate Waiting(s: State) {
    s.Copying? || s.Copied? || s.Authenticated?
  }

  /** What was copied and does not run yet is in memory as the blocks it was copied in, unless somebody else wrote there. */
  ghost predicate MemOk(mem: Memory, attrs: Attrs, descs: Descs, via: set<Id>, blocks: map<Id, seq<Byte>>)
    requires attrs.Keys == descs.Keys && via <= attrs.Keys
  {
    forall i :: i in via && Waiting(descs[i].state) ==>
      i in blocks ==> |blocks[i]| == descs[i].copied && Holds(mem, attrs[i].base, blocks[i])
  }

  function Read(mem: Memory, src: nat, n: nat): (bytes: seq<Byte>)
    ensures |bytes| == n && Holds(mem, src, bytes)
  {
    seq(n, k requires 0 <= k < n => mem(src + k))
  }

  function Write(mem: Memory, base: nat, bytes: seq<Byte>): Memory {
    (a: nat) => if base <= a < base + |bytes| then bytes[a - base] else mem(a)
  }

  function Zeros(n: nat): (bytes: seq<Byte>)
    ensures |bytes| == n
  {
    seq(n, k => 0)
  }

  lemma WriteElsewhere(mem: Memory, at: nat, bytes: seq<Byte>, base: nat, kept: seq<Byte>)
    requires Holds(mem, base, kept) && Disjoint(at, |bytes|, base, |kept|)
    ensures Holds(Write(mem, at, bytes), base, kept)
  {
  }

  lemma WriteBehind(mem: Memory, base: nat, kept: seq<Byte>, bytes: seq<Byte>)
    requires Holds(mem, base, kept)
    ensures Holds(Write(mem, base + |kept|, bytes), base, kept + bytes)
  {
  }

  /** Writing inside the range of one copied image, or nowhere, leaves the others alone. */
  lemma WriteInside(mem: Memory, attrs: Attrs, descs: Descs, via: set<Id>, blocks: map<Id, seq<Byte>>,
                    id: Id, size: nat, at: nat, bytes: seq<Byte>)
    requires attrs.Keys == descs.Keys && via <= attrs.Keys && id in attrs && id !in via
    requires MemOk(mem, attrs, descs, via, blocks)
    requires forall j :: j in via ==> descs[j].copied <= descs[j].size
    requires forall j :: j in via ==> Disjoint(attrs[id].base, size, attrs[j].base, descs[j].size)
    requires attrs[id].base <= at && at + |bytes| <= attrs[id].base + size
    ensures MemOk(Write(mem, at, bytes), attrs, descs, via, blocks)
  {
    hide Holds, Write;
    forall j | j in via && Waiting(descs[j].state) && j in blocks ensures Holds(Write(mem, at, bytes), attrs[j].base, blocks[j]) {
      WriteElsewhere(mem, at, bytes, attrs[j].base, blocks[j]);
    }
  }

  lemma MemOne(mem: Memory, attrs: Attrs, descs: Descs, via: set<Id>, blocks: map<Id, seq<Byte>>,
               id: Id, d: Desc, bytes: seq<Byte>)
    requires attrs.Keys == descs.Keys && via <= attrs.Keys && id in attrs
    requires MemOk(mem, attrs, descs, via - {id}, blocks)
    requires Waiting(d.state) ==> |bytes| == d.copied && Holds(mem, attrs[id].base, bytes)
    ensures MemOk(mem, attrs, descs[id := d], via + {id}, blocks[id := bytes])
  {
    hide Holds;
  }

  lemma MemUnrecorded(mem: Memory, attrs: Attrs, descs: Descs, via: set<Id>, blocks: map<Id, seq<Byte>>, id: Id, d: Desc)
    requires attrs.Keys == descs.Keys && via <= attrs.Keys && id in attrs && id !in blocks
    requires MemOk(mem, attrs, descs, via - {id}, blocks)
    ensures MemOk(mem, attrs, descs[id := d], via + {id}, blocks)
  {
    hide Holds;
  }

  lemma MemLess(mem: Memory, attrs: Attrs, descs: Descs, via: set<Id>, blocks: map<Id, seq<Byte>>, id: Id, d: Desc)
    requires attrs.Keys == descs.Keys && via <= attrs.Keys && id in attrs
    requires MemOk(mem, attrs, descs, via, blocks)
    ensures MemOk(mem, attrs, descs, via - {id}, blocks) && MemOk(mem, attrs, descs[id := d], via - {id}, blocks)
  {
    hide Holds;
  }

  /** The table with an id more: the id is in it already, or takes the first empty slot. */
  ghost predicate Added(s: seq<Ref>, s': seq<Ref>, id: Id) {
    || (Image(id) in s && s' == s)
    || (Image(id) !in s && exists k :: FirstEmpty(s, k) && s' == s[k := Image(id)])
  }

  ghost predicate FirstEmpty(s: seq<Ref>, k: int) {
    0 <= k < |s| && s[k] == Invalid && forall i :: 0 <= i < k ==> s[i] != Invalid
  }

  ghost predicate Removed(s: seq<Ref>, s': seq<Ref>, id: Id) {
    exists k :: 0 <= k < |s| && s[k] == Image(id) && s' == s[k := Invalid]
  }

  /** The table without an id, if it is there. */
  ghost predicate Unlisted(s: seq<Ref>, s': seq<Ref>, id: Id) {
    if Image(id) in s then Removed(s, s', id) else s' == s
  }

  lemma AddThenRemove(s: seq<Ref>, s1: seq<Ref>, s2: seq<Ref>, id: Id)
    requires (Image(id) in s && s1 == s) || Added(s, s1, id)
    requires Removed(s1, s2, id)
    ensures Unlisted(s, s2, id)
  {
    if Image(id) !in s {
      var k :| FirstEmpty(s, k) && s1 == s[k := Image(id)];
      var j :| 0 <= j < |s1| && s1[j] == Image(id) && s2 == s1[j := Invalid];
      assert forall i :: 0 <= i < |s| ==> s[i] != Image(id);
      assert j == k;
      assert s2 == s;
    }
  }

  lemma AddedKeeps(attrs: Attrs, descs: Descs, s: seq<Ref>, s': seq<Ref>, id: Id, d: Desc)
    requires attrs.Keys == descs.Keys && id in attrs && TableOk(attrs, descs, s) && Added(s, s', id)
    ensures Image(id) in s' && OneSlotEach(s')
    ensures descs[id := d].Keys == attrs.Keys && TableOk(attrs, descs[id := d], s') && TableOk(attrs, descs, s')
  {
    if Image(id) !in s {
      var k :| FirstEmpty(s, k) && s' == s[k := Image(id)];
      assert s'[k] == Image(id);
      forall r | r in s && r.Image? ensures r in s' {
        var i :| 0 <= i < |s| && s[i] == r;
        assert s'[i] == r;
      }
    }
  }

  lemma RemovedKeeps(attrs: Attrs, descs: Descs, s: seq<Ref>, s': seq<Ref>, id: Id, d: Desc)
    requires attrs.Keys == descs.Keys && id in attrs && TableOk(attrs, descs, s) && Removed(s, s', id)
    requires attrs[id].secure ==> d.state.Reset?
    ensures Image(id) !in s' && descs[id := d].Keys == attrs.Keys && TableOk(attrs, descs[id := d], s')
  {
    var k :| 0 <= k < |s| && s[k] == Image(id) && s' == s[k := Invalid];
    forall r | r in s && r != Image(id) ensures r in s' {
      var i :| 0 <= i < |s| && s[i] == r;
      assert s'[i] == r;
    }
  }

  /** An image changes alone. */
  lemma ImageChanges(attrs: Attrs, descs: Descs, via: set<Id>, authed: set<Id>, id: Id, d: Desc, via': set<Id>, authed': set<Id>)
    requires attrs.Keys == descs.Keys && id in attrs && ImagesOk(attrs, descs, via, authed)
    requires via' == via + {id} || via' == via - {id} || via' == via
    requires authed' == authed + {id} || authed' == authed - {id} || authed' == authed
    requires DescOk(attrs[id], d, id in via', id in authed')
    ensures descs[id := d].Keys == attrs.Keys && ImagesOk(attrs, descs[id := d], via', authed')
  {
    hide DescOk;
  }

  lemma ApartLess(attrs: Attrs, descs: Descs, via: set<Id>, id: Id, d: Desc)
    requires attrs.Keys == descs.Keys && via <= attrs.Keys && id in attrs && Apart(attrs, descs, via)
    ensures descs[id := d].Keys == attrs.Keys && Apart(attrs, descs[id := d], via - {id})
    ensures id in via && d.size == descs[id].size ==> Apart(attrs, descs[id := d], via)
  {
    hide Disjoint;
  }

  lemma ApartMore(attrs: Attrs, descs: Descs, via: set<Id>, id: Id, d: Desc)
    requires attrs.Keys == descs.Keys && via <= attrs.Keys && id in attrs && Apart(attrs, descs, via)
    requires forall j :: j in via && j != id ==> Disjoint(attrs[id].base, d.size, attrs[j].base, descs[j].size)
    ensures descs[id := d].Keys == attrs.Keys && Apart(attrs, descs[id := d], via + {id})
  {
  }

  lemma WorldSame(attrs: Attrs, descs: Descs, secExec: Ref, world: World, id: Id, d: Desc)
    requires attrs.Keys == descs.Keys && id in attrs && WorldOk(attrs, descs, secExec, world)
    requires attrs[id].secure ==> (d.state.Executed? <==> descs[id].state.Executed?)
    ensures descs[id := d].Keys == attrs.Keys && WorldOk(attrs, descs[id := d], secExec, world)
  {
  }

  /** The range of an image that is not empty makes sense to the overlap check. */
  predicate Sane(a: Attr, d: Desc) {
    !d.state.Reset? && (d.size == 0 || (2 <= d.size && a.base + d.size <= U64))
  }

  /** What a slot must be for the image id to be loaded next to it. */
  predicate Clear(attrs: Attrs, descs: Descs, r: Ref, id: Id) {
    || r.Invalid? || r.id == id
    || (&& id in attrs && id in descs && r.id in attrs && r.id in descs
        && Sane(attrs[r.id], descs[r.id])
        && (descs[r.id].size == 0 || Disjoint(attrs[id].base, descs[id].size, attrs[r.id].base, descs[r.id].size)))
  }

  /** The service's state as a value. */
  datatype View = View(descs: Descs, table: seq<Ref>, secExec: Ref, world: World, mem: Memory, via: set<Id>, authed: set<Id>,
                       blocks: map<Id, seq<Byte>>)

  ghost predicate Inv(attrs: Attrs, v: View) {
    && Covers(attrs, v.descs) && ImagesOk(attrs, v.descs, v.via, v.authed) && Apart(attrs, v.descs, v.via)
    && TableOk(attrs, v.descs, v.table) && WorldOk(attrs, v.descs, v.secExec, v.world)
    && MemOk(v.mem, attrs, v.descs, v.via, v.blocks)
  }

  lemma InvImage(attrs: Attrs, v: View, id: Id)
    requires Inv(attrs, v) && id in attrs
    ensures attrs.Keys == v.descs.Keys && v.via <= attrs.Keys && DescOk(attrs[id], v.descs[id], id in v.via, id in v.authed)
    ensures attrs[id].base < U64 && attrs[id].base + attrs[id].max <= U64
    ensures attrs[id].secure && !v.descs[id].state.Reset? ==> Image(id) in v.table
    ensures attrs[id].secure ==> (v.descs[id].state.Executed? <==> v.world.Secure? && v.secExec == Image(id))
    ensures id in v.via && Waiting(v.descs[id].state) && id in v.blocks ==>
              |v.blocks[id]| == v.descs[id].copied && Holds(v.mem, attrs[id].base, v.blocks[id])
  {
    hide Apart, DescOk, OneSlotEach, Holds;
  }

  lemma InvRecorded(attrs: Attrs, v: View)
    requires Inv(attrs, v)
    ensures attrs.Keys == v.descs.Keys
    ensures v.secExec.Image? ==> v.secExec.id in attrs && attrs[v.secExec.id].secure && attrs[v.secExec.id].executable
    ensures v.world.Secure? ==> v.secExec.Image?
  {
    hide Apart, DescOk, ImagesOk, TableOk, MemOk;
  }

  /** An image changes: what then has to be shown. */
  lemma Changed(attrs: Attrs, v: View, v': View, id: Id, d: Desc)
    requires Inv(attrs, v) && id in attrs && v'.descs == v.descs[id := d] && v'.descs.Keys == attrs.Keys
    requires v'.via == v.via + {id} || v'.via == v.via - {id} || v'.via == v.via
    requires v'.authed == v.authed + {id} || v'.authed == v.authed - {id} || v'.authed == v.authed
    requires DescOk(attrs[id], d, id in v'.via, id in v'.authed)
    requires v'.via <= attrs.Keys && Apart(attrs, v'.descs, v'.via) && TableOk(attrs, v'.descs, v'.table)
    requires WorldOk(attrs, v'.descs, v'.secExec, v'.world)
    requires MemOk(v'.mem, attrs, v'.descs, v'.via, v'.blocks)
    ensures Inv(attrs, v')
  {
    hide Apart, DescOk, TableOk, WorldOk, MemOk;
    ImageChanges(attrs, v.descs, v.via, v.authed, id, d, v'.via, v'.authed);
  }

  lemma TableSame(attrs: Attrs, descs: Descs, s: seq<Ref>, id: Id, d: Desc)
    requires attrs.Keys == descs.Keys && id in attrs && TableOk(attrs, descs, s)
    requires attrs[id].secure && !d.state.Reset? ==> Image(id) in s
    ensures descs[id := d].Keys == attrs.Keys && TableOk(attrs, descs[id := d], s)
  {
  }

  /** The sizes of a reset image are free. */
  lemma ResizeKeeps(attrs: Attrs, v: View, id: Id, d: Desc)
    requires Inv(attrs, v) && id in attrs && v.descs.Keys == attrs.Keys && v.descs[id].state.Reset? && d.state.Reset?
    requires d.size < U32 && (d.copied == 0 || d.copied == v.descs[id].copied)
    ensures Inv(attrs, v.(descs := v.descs[id := d]))
  {
    InvImage(attrs, v, id);
    assert v.via - {id} == v.via;
    assert DescOk(attrs[id], d, id in v.via, id in v.authed);
    hide Apart, DescOk, TableOk, WorldOk, MemOk, ImagesOk;
    ApartLess(attrs, v.descs, v.via, id, d);
    TableSame(attrs, v.descs, v.table, id, d);
    WorldSame(attrs, v.descs, v.secExec, v.world, id, d);
    MemLess(v.mem, attrs, v.descs, v.via, v.blocks, id, d);
    Changed(attrs, v, v.(descs := v.descs[id := d]), id, d);
  }

  /** An id more in the table. */
  lemma AddKeeps(attrs: Attrs, v: View, s': seq<Ref>, id: Id)
    requires Inv(attrs, v) && id in attrs && Added(v.table, s', id)
    ensures Inv(attrs, v.(table := s')) && Image(id) in s'
  {
    InvImage(attrs, v, id);
    hide Apart, DescOk, WorldOk, MemOk, ImagesOk, TableOk, Added;
    AddedKeeps(attrs, v.descs, v.table, s', id, v.descs[id]);
  }

  /** The image can be copied to: it is, or its range meets no image in the table. */
  ghost predicate Loadable(attrs: Attrs, descs: Descs, s: seq<Ref>, id: Id)
    requires attrs.Keys == descs.Keys && id in attrs
  {
    var d := descs[id];
    && attrs[id].secure && d.copied < d.size <= attrs[id].max
    && (d.state.Copying? || (d.state.Reset? && d.copied == 0))
    && (d.state.Reset? ==> forall r :: r in s && r.Image? ==> r.id in attrs && Clear(attrs, descs, r, id))
  }

  lemma LoadableApart(attrs: Attrs, v: View, id: Id)
    requires Inv(attrs, v) && id in attrs && v.descs.Keys == attrs.Keys && v.via <= attrs.Keys
    requires Loadable(attrs, v.descs, v.table, id)
    ensures forall j :: j in v.via && j != id ==>
              && v.descs[j].copied <= v.descs[j].size
              && Disjoint(attrs[id].base, v.descs[id].size, attrs[j].base, v.descs[j].size)
  {
    hide Disjoint, MemOk, WorldOk;
    forall j | j in v.via && j != id
      ensures v.descs[j].copied <= v.descs[j].size
      ensures Disjoint(attrs[id].base, v.descs[id].size, attrs[j].base, v.descs[j].size)
    {
      InvImage(attrs, v, j);
      InvImage(attrs, v, id);
      if v.descs[id].state.Reset? {
        assert Clear(attrs, v.descs, Image(j), id);
      } else {
        assert id in v.via && j in v.via;
      }
    }
  }

  /** The image after n more bytes. */
  function Advanced(d: Desc, n: nat): Desc {
    Desc(if d.copied + n == d.size then Copied else Copying, d.size, d.copied + n)
  }

  ghost function Prefix(descs: Descs, blocks: map<Id, seq<Byte>>, id: Id): seq<Byte>
    requires id in descs
  {
    if descs[id].state.Copying? && id in blocks then blocks[id] else []
  }

  /** The record after another block: it is continued, or begun with the first block, or stays dropped. */
  ghost function Recorded(descs: Descs, blocks: map<Id, seq<Byte>>, id: Id, bytes: seq<Byte>): map<Id, seq<Byte>>
    requires id in descs
  {
    if descs[id].state.Copying? && id !in blocks then blocks else blocks[id := Prefix(descs, blocks, id) + bytes]
  }

  ghost function AfterCopy(attrs: Attrs, v: View, id: Id, bytes: seq<Byte>): View
    requires id in v.descs && id in attrs
  {
    var d := v.descs[id];
    v.(descs := v.descs[id := Advanced(d, |bytes|)], mem := Write(v.mem, attrs[id].base + d.copied, bytes),
       via := v.via + {id}, blocks := Recorded(v.descs, v.blocks, id, bytes))
  }

  lemma CopyMemory(attrs: Attrs, v: View, id: Id, bytes: seq<Byte>)
    requires Inv(attrs, v) && id in attrs && v.descs.Keys == attrs.Keys && Loadable(attrs, v.descs, v.table, id)
    requires 0 < |bytes| <= v.descs[id].size - v.descs[id].copied && v.via <= attrs.Keys
    ensures var v' := AfterCopy(attrs, v, id, bytes);
      && v'.descs.Keys == attrs.Keys && v'.via <= attrs.Keys
      && MemOk(v'.mem, attrs, v'.descs, v'.via, v'.blocks)
  {
    hide Apart, TableOk, WorldOk, ImagesOk, Write, Holds, Disjoint, MemOk;
    var was := v.descs[id];
    InvParts(attrs, v);
    InvImage(attrs, v, id);
    LoadableApart(attrs, v, id);
    MemLess(v.mem, attrs, v.descs, v.via, v.blocks, id, was);
    WriteInside(v.mem, attrs, v.descs, v.via - {id}, v.blocks, id, was.size, attrs[id].base + was.copied, bytes);
    NothingHolds(v.mem, attrs[id].base);
    if was.state.Copying? && id !in v.blocks {
      MemUnrecorded(AfterCopy(attrs, v, id, bytes).mem, attrs, v.descs, v.via, v.blocks, id, Advanced(was, |bytes|));
    } else {
      WriteBehind(v.mem, attrs[id].base, Prefix(v.descs, v.blocks, id), bytes);
      MemOne(AfterCopy(attrs, v, id, bytes).mem, attrs, v.descs, v.via, v.blocks,
             id, Advanced(was, |bytes|), Prefix(v.descs, v.blocks, id) + bytes);
    }
  }

  lemma CopyKeeps(attrs: Attrs, v: View, id: Id, bytes: seq<Byte>)
    requires Inv(attrs, v) && id in attrs && v.descs.Keys == attrs.Keys && Loadable(attrs, v.descs, v.table, id)
    requires Image(id) in v.table && 0 < |bytes| <= v.descs[id].size - v.descs[id].copied
    ensures Inv(attrs, AfterCopy(attrs, v, id, bytes))
  {
    var was, d, v' := v.descs[id], Advanced(v.descs[id], |bytes|), AfterCopy(attrs, v, id, bytes);
    InvImage(attrs, v, id);
    LoadableApart(attrs, v, id);
    assert DescOk(attrs[id], d, id in v'.via, id in v'.authed);
    hide Apart, DescOk, TableOk, WorldOk, ImagesOk, Write, Holds, Disjoint;
    InvParts(attrs, v);
    ApartMore(attrs, v.descs, v.via, id, d);
    TableSame(attrs, v.descs, v.table, id, d);
    WorldSame(attrs, v.descs, v.secExec, v.world, id, d);
    CopyMemory(attrs, v, id, bytes);
    hide MemOk, Prefix, Advanced;
    Changed(attrs, v, v', id, d);
  }

  lemma NothingHolds(mem: Memory, base: nat)
    ensures Holds(mem, base, [])
  {
  }

  lemma InvParts(attrs: Attrs, v: View)
    requires Inv(attrs, v)
    ensures attrs.Keys == v.descs.Keys && v.via <= attrs.Keys && Apart(attrs, v.descs, v.via) && TableOk(attrs, v.descs, v.table)
    ensures WorldOk(attrs, v.descs, v.secExec, v.world)
    ensures MemOk(v.mem, attrs, v.descs, v.via, v.blocks)
  {
    hide Apart, DescOk, TableOk, WorldOk, MemOk;
  }

  /**
   The record after n bytes of an image were cleared. What was copied of it lies apart from what was copied of others;
   of an image that was authenticated in place the sizes are stale, and clearing it may overwrite others.
   */
  ghost function Unspoilt(attrs: Attrs, v: View, id: Id, n: nat): map<Id, seq<Byte>>
    requires id in attrs
  {
    if n == 0 || id in v.via then v.blocks else v.blocks - Met(attrs, v.descs, attrs[id].base, n)
  }

  ghost function AfterReset(attrs: Attrs, v: View, id: Id, d: Desc, n: nat, table: seq<Ref>): View
    requires id in attrs
  {
    v.(descs := v.descs[id := d], mem := if n == 0 then v.mem else Write(v.mem, attrs[id].base, Zeros(n)),
       via := v.via - {id}, authed := v.authed - {id}, table := table, blocks := Unspoilt(attrs, v, id, n))
  }

  /** An image is reset, and as much of it as was copied is cleared. */
  lemma ResetKeeps(attrs: Attrs, v: View, id: Id, d: Desc, n: nat, table: seq<Ref>)
    requires Inv(attrs, v) && id in attrs && v.descs.Keys == attrs.Keys && Removed(v.table, table, id)
    requires d.state.Reset? && d.size < U32 && (attrs[id].secure || d.copied == 0)
    requires id in v.via ==> n <= v.descs[id].size
    requires attrs[id].secure ==> !v.descs[id].state.Executed?
    ensures Inv(attrs, AfterReset(attrs, v, id, d, n, table)) && Image(id) !in table
  {
    var v' := AfterReset(attrs, v, id, d, n, table);
    InvImage(attrs, v, id);
    assert DescOk(attrs[id], d, false, false);
    hide Apart, DescOk, TableOk, WorldOk, ImagesOk, Write, Holds, Disjoint, Removed, MemOk;
    InvParts(attrs, v);
    ApartLess(attrs, v.descs, v.via, id, d);
    RemovedKeeps(attrs, v.descs, v.table, table, id, d);
    WorldSame(attrs, v.descs, v.secExec, v.world, id, d);
    ResetMemory(attrs, v, id, d, n, table);
    Changed(attrs, v, v', id, d);
  }

  lemma ResetMemory(attrs: Attrs, v: View, id: Id, d: Desc, n: nat, table: seq<Ref>)
    requires Inv(attrs, v) && id in attrs && v.descs.Keys == attrs.Keys && v.via <= attrs.Keys
    requires id in v.via ==> n <= v.descs[id].size
    ensures var v' := AfterReset(attrs, v, id, d, n, table);
      v'.descs.Keys == attrs.Keys && v'.via <= attrs.Keys && MemOk(v'.mem, attrs, v'.descs, v'.via, v'.blocks)
  {
    hide Inv, Write, Holds, Disjoint, MemOk, Met;
    InvParts(attrs, v);
    if n == 0 {
      MemLess(v.mem, attrs, v.descs, v.via, v.blocks, id, d);
    } else if id in v.via {
      MemLess(v.mem, attrs, v.descs, v.via, v.blocks, id, d);
      OthersApart(attrs, v, id);
      WriteInside(v.mem, attrs, v.descs[id := d], v.via - {id}, v.blocks, id, v.descs[id].size, attrs[id].base, Zeros(n));
    } else {
      StoreKeeps(attrs, v, attrs[id].base, Zeros(n));
      var w := v.(mem := Write(v.mem, attrs[id].base, Zeros(n)), blocks := Unspoilt(attrs, v, id, n));
      InvParts(attrs, w);
      MemLess(w.mem, attrs, w.descs, w.via, w.blocks, id, d);
    }
  }

  lemma OthersApart(attrs: Attrs, v: View, id: Id)
    requires Inv(attrs, v) && id in v.via && v.descs.Keys == attrs.Keys && v.via <= attrs.Keys
    ensures forall j :: j in v.via && j != id ==>
              && v.descs[j].copied <= v.descs[j].size
              && Disjoint(attrs[id].base, v.descs[id].size, attrs[j].base, v.descs[j].size)
  {
    hide Disjoint, MemOk, WorldOk, TableOk;
  }

  /** An image becomes authenticated, in place if it was reset. */
  lemma AuthKeeps(attrs: Attrs, v: View, id: Id, d: Desc)
    requires Inv(attrs, v) && id in attrs && v.descs.Keys == attrs.Keys && Image(id) in v.table && d.state.Authenticated?
    requires d.size < U32 && d.copied == v.descs[id].copied
    requires if id in v.via then v.descs[id].state.Copied? && d.size == v.descs[id].size else v.descs[id].state.Reset?
    ensures Inv(attrs, v.(descs := v.descs[id := d], authed := v.authed + {id}))
  {
    var v' := v.(descs := v.descs[id := d], authed := v.authed + {id});
    InvImage(attrs, v, id);
    assert DescOk(attrs[id], d, id in v.via, true);
    hide Apart, DescOk, TableOk, WorldOk, ImagesOk, Holds;
    InvParts(attrs, v);
    ApartLess(attrs, v.descs, v.via, id, d);
    assert id !in v.via ==> v.via - {id} == v.via;
    TableSame(attrs, v.descs, v.table, id, d);
    WorldSame(attrs, v.descs, v.secExec, v.world, id, d);
    Changed(attrs, v, v', id, d);
  }

  /** Execution passes into a secure image, or out of it into the normal world. */
  lemma SwitchKeeps(attrs: Attrs, v: View, id: Id, d: Desc, secExec: Ref, world: World)
    requires Inv(attrs, v) && id in attrs && v.descs.Keys == attrs.Keys && attrs[id].secure && attrs[id].executable
    requires d == v.descs[id].(state := d.state) && secExec == Image(id) && id in v.authed
    requires || (world.Secure? && v.world.Normal? && d.state.Executed?
                 && (v.descs[id].state.Authenticated? || v.descs[id].state.Interrupted?))
             || (world.Normal? && v.descs[id].state.Executed? && d.state.Interrupted?)
    ensures Inv(attrs, v.(descs := v.descs[id := d], secExec := secExec, world := world))
  {
    var v' := v.(descs := v.descs[id := d], secExec := secExec, world := world);
    InvImage(attrs, v, id);
    assert DescOk(attrs[id], d, id in v.via, id in v.authed);
    hide Apart, DescOk, TableOk, ImagesOk, Holds;
    InvParts(attrs, v);
    ApartLess(attrs, v.descs, v.via, id, d);
    assert id !in v.via ==> v.via - {id} == v.via;
    TableSame(attrs, v.descs, v.table, id, d);
    Changed(attrs, v, v', id, d);
  }

  /** A secure image is done: it is reset and the normal world runs. */
  lemma DoneKeeps(attrs: Attrs, v: View, id: Id, table: seq<Ref>)
    requires Inv(attrs, v) && id in attrs && v.descs.Keys == attrs.Keys && v.world.Secure? && v.secExec == Image(id)
    requires Removed(v.table, table, id)
    ensures Inv(attrs, AfterReset(attrs, v, id, v.descs[id].(state := Reset), 0, table).(secExec := Invalid, world := Normal))
  {
    var d := v.descs[id].(state := Reset);
    InvImage(attrs, v, id);
    InvRecorded(attrs, v);
    assert DescOk(attrs[id], d, false, false);
    hide Apart, DescOk, TableOk, ImagesOk, Holds, MemOk, Removed;
    InvParts(attrs, v);
    ApartLess(attrs, v.descs, v.via, id, d);
    RemovedKeeps(attrs, v.descs, v.table, table, id, d);
    MemLess(v.mem, attrs, v.descs, v.via, v.blocks, id, d);
    Changed(attrs, v, AfterReset(attrs, v, id, d, 0, table).(secExec := Invalid, world := Normal), id, d);
  }

  /** What a successful copy does: a block, clipped to what is missing, goes behind what was copied so far. */
  ghost predicate BlockCopied(attrs: Attrs, v: View, v': View, id: Id, src: nat, blockSize: nat, imageSize: nat) {
    && id in attrs && attrs[id].secure && id in v.descs && id in v'.descs && Image(id) in v'.table
    && v'.via == v.via + {id} && v'.authed == v.authed
    && (v.descs[id].state.Reset? || v.descs[id].state.Copying?)
    && var first := v.descs[id].state.Reset?;
       var done := if first then 0 else v.descs[id].copied;
       var total := if first then imageSize else v.descs[id].size;
       && done < total <= attrs[id].max
       && var n := if blockSize > total - done then total - done else blockSize;
          && 0 < n && v'.descs[id] == Desc(if done + n == total then Copied else Copying, total, done + n)
          && v'.mem == Write(v.mem, attrs[id].base + done, Read(v.mem, src, n))
          && v'.blocks == Recorded(v.descs, v.blocks, id, Read(v.mem, src, n))
  }

  ghost predicate Moved(attrs: Attrs, v: View, v': View, id: Id, src: nat, blockSize: nat) {
    && id in attrs && id in v.descs && Image(id) in v'.table && v.descs[id].copied <= v.descs[id].size
    && v'.via == v.via + {id} && v'.authed == v.authed
    && var remaining := v.descs[id].size - v.descs[id].copied;
       var n := if blockSize > remaining then remaining else blockSize;
       && v'.descs == v.descs[id := Advanced(v.descs[id], n)]
       && v'.mem == Write(v.mem, attrs[id].base + v.descs[id].copied, Read(v.mem, src, n))
       && v'.blocks == Recorded(v.descs, v.blocks, id, Read(v.mem, src, n))
  }

  lemma MovedIsCopied(attrs: Attrs, v: View, v1: View, v': View, id: Id, src: nat, blockSize: nat, imageSize: nat)
    requires Moved(attrs, v1, v', id, src, blockSize) && id in v.descs && v1.mem == v.mem && v1.blocks == v.blocks
    requires v1.via == v.via && v1.authed == v.authed
    requires v.descs[id].state.Reset? || v.descs[id].state.Copying?
    requires v1.descs[id] == if v.descs[id].state.Reset? then Desc(Reset, imageSize, 0) else v.descs[id]
    requires attrs[id].secure && v1.descs[id].copied < v1.descs[id].size <= attrs[id].max && 0 < blockSize
    ensures BlockCopied(attrs, v, v', id, src, blockSize, imageSize)
  {
    hide Read, Write;
  }

  lemma LoadableAfterAdd(attrs: Attrs, descs: Descs, s: seq<Ref>, s': seq<Ref>, id: Id)
    requires attrs.Keys == descs.Keys && id in attrs && Loadable(attrs, descs, s, id) && Added(s, s', id)
    ensures Loadable(attrs, descs, s', id)
  {
    hide Disjoint, Sane;
  }

  lemma LoadableSizes(attrs: Attrs, descs: Descs, s: seq<Ref>, id: Id)
    requires attrs.Keys == descs.Keys && id in attrs && Loadable(attrs, descs, s, id)
    ensures attrs[id].secure && descs[id].copied < descs[id].size <= attrs[id].max
  {
  }

  lemma RemovedIsGone(attrs: Attrs, v: View, id: Id, table: seq<Ref>)
    requires Inv(attrs, v) && Removed(v.table, table, id)
    ensures Image(id) !in table
  {
    hide Apart, ImagesOk, MemOk, WorldOk;
  }

  /** The images that wait and of whose copied bytes the range meets some. */
  ghost function Met(attrs: Attrs, descs: Descs, at: nat, n: nat): set<Id> {
    set i | i in attrs && i in descs && Waiting(descs[i].state) && !Disjoint(at, n, attrs[i].base, descs[i].copied)
  }

  /** A write by one of the worlds: the record of what it overwrites is dropped. */
  lemma StoreKeeps(attrs: Attrs, v: View, at: nat, bytes: seq<Byte>)
    requires Inv(attrs, v)
    ensures Inv(attrs, v.(mem := Write(v.mem, at, bytes), blocks := v.blocks - Met(attrs, v.descs, at, |bytes|)))
  {
    InvParts(attrs, v);
    hide Apart, TableOk, WorldOk, DescOk, Write, Holds, Disjoint;
    var blocks := v.blocks - Met(attrs, v.descs, at, |bytes|);
    forall i | i in v.via && Waiting(v.descs[i].state) && i in blocks
      ensures Holds(Write(v.mem, at, bytes), attrs[i].base, blocks[i])
    {
      WriteElsewhere(v.mem, at, bytes, attrs[i].base, v.blocks[i]);
    }
  }

  ghost predicate OnlySlot(table: seq<Ref>, id: Id, k: int) {
    0 <= k < |table| && forall i :: 0 <= i < |table| ==> (table[i] == Image(id) <==> i == k)
  }

  predicate InRange(a: int, base: nat, size: nat) {
    base <= a < base + size
  }

  lemma SlotOf(attrs: Attrs, v: View, id: Id) returns (k: nat)
    requires Inv(attrs, v) && id in attrs && id in v.descs && attrs[id].secure && !v.descs[id].state.Reset?
    ensures OnlySlot(v.table, id, k)
  {
    hide Apart, MemOk, WorldOk, ImagesOk;
    k :| 0 <= k < |v.table| && v.table[k] == Image(id);
  }

  /** The sizes of an image that is copied are in order, and a secure one has one slot of the table. */
  ghost predicate LoadedSafely(a: Attr, d: Desc, table: seq<Ref>, id: Id) {
    && (d.state.Copying? ==> a.secure && 0 < d.copied < d.size <= a.max)
    && (d.state.Copied? ==> a.secure && 0 < d.copied == d.size <= a.max)
    && (a.secure && !d.state.Reset? ==> exists k :: OnlySlot(table, id, k))
  }

  /** What holds of an image in every state that a run reaches. */
  ghost predicate Safe(attrs: Attrs, v: View, id: Id) {
    && id in attrs && id in v.descs && LoadedSafely(attrs[id], v.descs[id], v.table, id)
    && (attrs[id].secure ==> (v.descs[id].state.Executed? <==> v.world.Secure? && v.secExec == Image(id)))
    && (attrs[id].secure && v.descs[id].state.Executed? ==> attrs[id].executable && id in v.authed)
    && (id in v.via && Waiting(v.descs[id].state) && id in v.blocks ==>
          |v.blocks[id]| == v.descs[id].copied && Read(v.mem, attrs[id].base, v.descs[id].copied) == v.blocks[id])
  }

  /** The images that were copied and not reset since share no address. */
  ghost predicate ShareNothing(attrs: Attrs, v: View) {
    && (forall i :: i in v.via ==> i in attrs && i in v.descs)
    && (forall i, j, a :: i in v.via && j in v.via && i != j && InRange(a, attrs[i].base, v.descs[i].size) ==>
                            !InRange(a, attrs[j].base, v.descs[j].size))
  }

  lemma AllSafe(attrs: Attrs, v: View)
    requires Inv(attrs, v)
    ensures (forall id :: id in attrs ==> Safe(attrs, v, id)) && ShareNothing(attrs, v)
  {
    InvParts(attrs, v);
    hide Inv;
    forall id | id in attrs ensures Safe(attrs, v, id) {
      Reachable(attrs, v, id);
    }
    forall i, j | i in v.via && j in v.via && i != j
      ensures forall a :: InRange(a, attrs[i].base, v.descs[i].size) ==> !InRange(a, attrs[j].base, v.descs[j].size)
    {
      CopiedAreApart(attrs, v, i, j);
    }
  }

  lemma Reachable(attrs: Attrs, v: View, id: Id)
    requires Inv(attrs, v) && id in attrs
    ensures Safe(attrs, v, id)
  {
    InvImage(attrs, v, id);
    InvRecorded(attrs, v);
    hide Inv;
    if attrs[id].secure && !v.descs[id].state.Reset? {
      var k := SlotOf(attrs, v, id);
    }
  }

  /** Clearing a range spares what another image holds exactly if whatever it holds there is zero already. */
  lemma ClearingSpares(mem: Memory, base: nat, n: nat, other: nat, kept: seq<Byte>)
    requires Holds(mem, other, kept)
    ensures Holds(Write(mem, base, Zeros(n)), other, kept) <==>
            forall k {:trigger kept[k]} :: 0 <= k < |kept| && InRange(other + k, base, n) ==> kept[k] == 0
  {
    if Holds(Write(mem, base, Zeros(n)), other, kept) {
      forall k | 0 <= k < |kept| && InRange(other + k, base, n) ensures kept[k] == 0 {
        assert Write(mem, base, Zeros(n))(other + k) == kept[k];
      }
    }
  }

  /** Clearing n bytes spares m bytes elsewhere, whatever they are, exactly if one of the ranges is empty or they are disjoint. */
  lemma ClearingSparesAll(base: nat, n: nat, other: nat, m: nat)
    ensures (forall mem: Memory, kept :: |kept| == m && Holds(mem, other, kept) ==>
               Holds(Write(mem, base, Zeros(n)), other, kept))
       <==> n == 0 || m == 0 || Disjoint(base, n, other, m)
  {
    forall mem: Memory, kept | |kept| == m && Holds(mem, other, kept) && (n == 0 || m == 0 || Disjoint(base, n, other, m))
      ensures Holds(Write(mem, base, Zeros(n)), other, kept)
    {
      ClearingSpares(mem, base, n, other, kept);
    }
    if 0 < n && 0 < m && !Disjoint(base, n, other, m) {
      var ones: Memory, a := _ => 1, if base < other then other else base;
      var kept := Read(ones, other, m);
      assert kept[a - other] == 1;
      ClearingSpares(ones, base, n, other, kept);
    }
  }

  /** Two images that were copied and not reset since occupy disjoint ranges. */
  lemma CopiedAreApart(attrs: Attrs, v: View, i: Id, j: Id)
    requires Inv(attrs, v) && i in v.via && j in v.via && i != j
    ensures i in attrs && j in attrs && i in v.descs && j in v.descs
    ensures forall a :: InRange(a, attrs[i].base, v.descs[i].size) ==> !InRange(a, attrs[j].base, v.descs[j].size)
  {
    InvParts(attrs, v);
    hide MemOk, TableOk, WorldOk, ImagesOk;
    assert Disjoint(attrs[i].base, v.descs[i].size, attrs[j].base, v.descs[j].size);
  }

  lemma ReadLength(mem: Memory, src: nat, n: nat)
    ensures |Read(mem, src, n)| == n
  {
  }

  /** Slot k holds another image that fails an assertion of the overlap check, and the slots before it let the check pass. */
  ghost predicate FiresAt(attrs: Attrs, descs: Descs, table: seq<Ref>, id: Id, k: int) {
    && 0 <= k < |table| && table[k].Image? && table[k].id != id && table[k].id in attrs && table[k].id in descs
    && !Sane(attrs[table[k].id], descs[table[k].id])
    && forall j :: 0 <= j < k ==> Clear(attrs, descs, table[j], id)
  }

  ghost predicate OverlapsAt(attrs: Attrs, descs: Descs, table: seq<Ref>, id: Id, k: int) {
    && 0 <= k < |table| && table[k].Image? && table[k].id in attrs && table[k].id in descs
    && Sane(attrs[table[k].id], descs[table[k].id]) && !Clear(attrs, descs, table[k], id)
    && forall j :: 0 <= j < k ==> Clear(attrs, descs, table[j], id)
  }

  ghost predicate AllClear(attrs: Attrs, descs: Descs, table: seq<Ref>, id: Id) {
    forall k :: 0 <= k < |table| ==> Clear(attrs, descs, table[k], id)
  }

  ghost predicate AssertionFires(attrs: Attrs, descs: Descs, table: seq<Ref>, id: Id) {
    exists k :: FiresAt(attrs, descs, table, id, k)
  }

  lemma FiringIsNotClear(attrs: Attrs, descs: Descs, table: seq<Ref>, id: Id)
    ensures AssertionFires(attrs, descs, table, id) ==> !AllClear(attrs, descs, table, id)
  {
    if AssertionFires(attrs, descs, table, id) {
      var k :| FiresAt(attrs, descs, table, id, k);
      assert !Clear(attrs, descs, table[k], id);
    }
  }

  lemma OverlapIsNoFiring(attrs: Attrs, descs: Descs, table: seq<Ref>, id: Id, i: int)
    requires OverlapsAt(attrs, descs, table, id, i)
    ensures !AssertionFires(attrs, descs, table, id) && !AllClear(attrs, descs, table, id)
  {
    assert !Clear(attrs, descs, table[i], id);
    forall k | 0 <= k < |table| ensures !FiresAt(attrs, descs, table, id, k) {
      OverlapNotFiring(attrs, descs, table, id, i, k);
    }
  }

  lemma OverlapNotFiring(attrs: Attrs, descs: Descs, table: seq<Ref>, id: Id, i: int, k: int)
    requires OverlapsAt(attrs, descs, table, id, i) && 0 <= k < |table|
    ensures !FiresAt(attrs, descs, table, id, k)
  {
    hide Sane;
    if k == i {
    } else if k < i {
      assert Clear(attrs, descs, table[k], id);
    }
  }

  lemma NotBoth(attrs: Attrs, descs: Descs, table: seq<Ref>, id: Id)
    ensures AssertionFires(attrs, descs, table, id) ==> !AllClear(attrs, descs, table, id)
    ensures AllClear(attrs, descs, table, id) || AssertionFires(attrs, descs, table, id) ==>
              !exists k :: OverlapsAt(attrs, descs, table, id, k)
  {
    FiringIsNotClear(attrs, descs, table, id);
    if k :| OverlapsAt(attrs, descs, table, id, k) {
      OverlapIsNoFiring(attrs, descs, table, id, k);
    }
  }

  /** The images with a size recorded for one of them. */
  function Sized(descs: Descs, id: Id, size: nat): Descs
    requires id in descs
  {
    descs[id := descs[id].(size := size)]
  }

  /** At most the recorded sizes of a reset image changed. */
  ghost predicate Resized(d: Desc, d': Desc) {
    d' == d || (d.state.Reset? && d'.state.Reset? && d'.size < U32 && (d'.copied == 0 || d'.copied == d.copied))
  }

  /** A copy that passes the checks of who asks for what. */
  ghost predicate CopyAsked(attrs: Attrs, v: View, id: Id, src: nat, blockSize: nat) {
    && id in attrs && id in v.descs && attrs[id].secure && v.world.Normal?
    && (v.descs[id].state.Reset? || v.descs[id].state.Copying?)
    && src != 0 && 0 < blockSize && src + blockSize <= U64
  }

  /** A first copy of a size within the limit, over which the overlap check fires an assertion. */
  ghost predicate CopyHalts(attrs: Attrs, v: View, id: Id, src: nat, blockSize: nat, size: nat) {
    && CopyAsked(attrs, v, id, src, blockSize) && v.descs[id].state.Reset? && 0 < size <= attrs[id].max
    && AssertionFires(attrs, Sized(v.descs, id, size), v.table, id)
  }

  /** A copy that gets a slot of the table. */
  /**
   What a copy that the state machine allows can lack: a source range, a size that fits, or, where it meets no other
   image, a mapping of the source or a slot in the table.
   */
  ghost predicate CopyLacks(attrs: Attrs, v: View, id: Id, src: nat, blockSize: nat, size: nat, mapped: bool) {
    && id in attrs && id in v.descs && attrs[id].secure && v.world.Normal?
    && (v.descs[id].state.Reset? || v.descs[id].state.Copying?)
    && (|| src == 0 || blockSize == 0 || src + blockSize > U64
        || (v.descs[id].state.Reset? && (size == 0 || size > attrs[id].max))
        || ((v.descs[id].state.Reset? ==> AllClear(attrs, Sized(v.descs, id, size), v.table, id))
            && (!mapped || !HasSlot(v.table, id))))
  }

  /** What a refused copy leaves recorded: a first one that passed the checks of its size has set or cleared the size. */
  ghost function AfterRefusal(attrs: Attrs, v: View, id: Id, src: nat, blockSize: nat, size: nat): Desc
    requires id in attrs && id in v.descs
  {
    if !CopyAsked(attrs, v, id, src, blockSize) || v.descs[id].state.Copying? || size == 0 || size > attrs[id].max
    then v.descs[id]
    else if AllClear(attrs, Sized(v.descs, id, size), v.table, id) then Desc(Reset, size, 0)
    else v.descs[id].(size := 0)
  }

  ghost predicate CopyAdmitted(attrs: Attrs, v: View, id: Id, src: nat, blockSize: nat, size: nat, mapped: bool) {
    && CopyAsked(attrs, v, id, src, blockSize) && mapped && HasSlot(v.table, id)
    && (v.descs[id].state.Reset? ==> 0 < size <= attrs[id].max && AllClear(attrs, Sized(v.descs, id, size), v.table, id))
  }

  ghost predicate HasSlot(table: seq<Ref>, id: Id) {
    Image(id) in table || Invalid in table
  }

  datatype Verdict = Fine | Overlaps | Fires

  /** Another image in the table has an address in common with the image id. */
  ghost predicate SharesAt(attrs: Attrs, descs: Descs, table: seq<Ref>, id: Id, k: int, a: nat) {
    && 0 <= k < |table| && table[k].Image? && table[k].id != id && table[k].id in attrs && table[k].id in descs
    && id in attrs && id in descs
    && InRange(a, attrs[id].base, descs[id].size) && InRange(a, attrs[table[k].id].base, descs[table[k].id].size)
  }

  lemma ClearIsApart(attrs: Attrs, descs: Descs, table: seq<Ref>, id: Id, k: nat)
    requires k < |table| && id in attrs && id in descs && 0 < descs[id].size
    requires table[k].Image? ==> table[k].id in attrs && table[k].id in descs
    requires table[k].Image? && table[k].id != id ==> Sane(attrs[table[k].id], descs[table[k].id])
    ensures Clear(attrs, descs, table[k], id) <==> forall a: nat :: !SharesAt(attrs, descs, table, id, k, a)
  {
    if table[k].Image? && table[k].id != id && descs[table[k].id].size > 0 {
      var b, c := attrs[id].base, attrs[table[k].id].base;
      if !Clear(attrs, descs, table[k], id) {
        assert SharesAt(attrs, descs, table, id, k, if b < c then c else b);
      }
    }
  }

  /** The place of an image is refused exactly if another one in the table has an address in common with it. */
  lemma RefusedIfShared(attrs: Attrs, descs: Descs, table: seq<Ref>, id: Id)
    requires id in attrs && id in descs && 0 < descs[id].size && !AssertionFires(attrs, descs, table, id)
    requires forall r :: r in table && r.Image? ==> r.id in attrs && r.id in descs
    ensures AllClear(attrs, descs, table, id) <==> forall k, a: nat :: !SharesAt(attrs, descs, table, id, k, a)
  {
    hide Clear, Sane, SharesAt, AssertionFires;
    if AllClear(attrs, descs, table, id) {
      forall k, a: nat ensures !SharesAt(attrs, descs, table, id, k, a) {
        ClearSharesNot(attrs, descs, table, id, k, a);
      }
    } else {
      var k := FirstUnclear(attrs, descs, table, id);
      NoFiring(attrs, descs, table, id, k);
      ClearIsApart(attrs, descs, table, id, k);
    }
  }

  lemma ClearSharesNot(attrs: Attrs, descs: Descs, table: seq<Ref>, id: Id, k: int, a: nat)
    requires AllClear(attrs, descs, table, id)
    ensures !SharesAt(attrs, descs, table, id, k, a)
  {
    if 0 <= k < |table| { assert Clear(attrs, descs, table[k], id); }
  }

  lemma FirstUnclear(attrs: Attrs, descs: Descs, table: seq<Ref>, id: Id) returns (k: nat)
    requires !AllClear(attrs, descs, table, id)
    ensures k < |table| && !Clear(attrs, descs, table[k], id) && forall j :: 0 <= j < k ==> Clear(attrs, descs, table[j], id)
  {
    hide Clear;
    k := 0;
    while Clear(attrs, descs, table[k], id)
      invariant k < |table| && forall j :: 0 <= j < k ==> Clear(attrs, descs, table[j], id)
      invariant exists j :: k <= j < |table| && !Clear(attrs, descs, table[j], id)
      decreases |table| - k
    {
      k := k + 1;
    }
  }

  lemma NoFiring(attrs: Attrs, descs: Descs, table: seq<Ref>, id: Id, k: nat)
    requires !AssertionFires(attrs, descs, table, id) && k < |table| && !Clear(attrs, descs, table[k], id)
    requires forall j :: 0 <= j < k ==> Clear(attrs, descs, table[j], id)
    requires table[k].Image? ==> table[k].id in attrs && table[k].id in descs
    ensures table[k].Image? && table[k].id != id && Sane(attrs[table[k].id], descs[table[k].id])
  {
    hide Sane;
    assert !FiresAt(attrs, descs, table, id, k);
  }

  /**
   A first copy of a size that fits is admitted exactly if no listed image has an address in common with it, the source is
   mapped and a slot is left.
   */
  lemma FirstCopyAdmitted(attrs: Attrs, v: View, id: Id, src: nat, blockSize: nat, size: nat, mapped: bool)
    requires Inv(attrs, v) && CopyAsked(attrs, v, id, src, blockSize) && v.descs[id].state.Reset? && 0 < size <= attrs[id].max
    requires !CopyHalts(attrs, v, id, src, blockSize, size)
    ensures CopyAdmitted(attrs, v, id, src, blockSize, size, mapped) <==>
              mapped && HasSlot(v.table, id) && forall k, a: nat :: !SharesAt(attrs, Sized(v.descs, id, size), v.table, id, k, a)
  {
    hide AssertionFires, AllClear, SharesAt, Apart, ImagesOk, MemOk, WorldOk, HasSlot;
    RefusedIfShared(attrs, Sized(v.descs, id, size), v.table, id);
  }

  /** The state at reset: nothing has been copied or authenticated. */
  ghost function Start(descs: Descs, table: seq<Ref>, mem: Memory): View {
    View(descs, table, Invalid, Normal, mem, {}, {}, map[])
  }

  /** At reset: no image is loaded, and only images of the normal world may run already. */
  ghost predicate AtReset(attrs: Attrs, descs: Descs, table: seq<Ref>) {
    && attrs.Keys == descs.Keys && (forall i :: 0 <= i < |table| ==> table[i] == Invalid)
    && forall i :: i in attrs ==>
         && attrs[i].base < U64 && attrs[i].base + attrs[i].max <= U64 && descs[i].size < U32 && descs[i].copied == 0
         && (attrs[i].secure ==> descs[i].state.Reset?) && (descs[i].state.Reset? || descs[i].state.Executed?)
  }

  /** Three images, of which the second overlaps the first. */
  function ThreeAttrs(): Attrs {
    map[0 := Attr(true, true, 0, 16), 1 := Attr(true, true, 2, 16), 2 := Attr(true, true, 100, 16)]
  }

  lemma EmptySlot(table: seq<Ref>, k: nat, id: Id)
    requires FirstEmpty(table, k) && Image(id) !in table
    ensures HasSlot(table, id) && Image(id) in table[k := Image(id)]
    ensures forall s' :: Added(table, s', id) ==> s' == table[k := Image(id)]
  {
    assert table[k] == Invalid;
    assert table[k := Image(id)][k] == Image(id);
    forall s' | Added(table, s', id) ensures s' == table[k := Image(id)] {
      var j :| FirstEmpty(table, j) && s' == table[j := Image(id)];
      assert j == k;
    }
  }

  lemma EmptyIsClear(attrs: Attrs, descs: Descs, table: seq<Ref>, id: Id)
    requires forall k :: 0 <= k < |table| ==> table[k].Invalid?
    ensures AllClear(attrs, descs, table, id) && !AssertionFires(attrs, descs, table, id)
  {
    FiringIsNotClear(attrs, descs, table, id);
  }

  lemma FirstTwoEmpty()
    ensures FirstEmpty([Invalid, Invalid, Invalid], 0) && FirstEmpty([Image(1), Invalid, Invalid], 1)
  {
  }

  lemma LastEmpty()
    ensures HasSlot([Image(1), Image(2), Invalid], 0)
  {
    assert Invalid == [Image(1), Image(2), Invalid][2];
  }

  lemma TwoApart(descs: Descs)
    requires {1, 2} <= descs.Keys && descs[1] == Desc(Copied, 4, 4) && descs[2].size == 4
    ensures AllClear(ThreeAttrs(), descs, [Image(1), Invalid, Invalid], 2)
  {
  }

  lemma FirstFires(attrs: Attrs, descs: Descs, table: seq<Ref>, id: Id)
    requires 0 < |table| && table[0].Image? && table[0].id != id && table[0].id in attrs && table[0].id in descs
    requires !Sane(attrs[table[0].id], descs[table[0].id])
    ensures AssertionFires(attrs, descs, table, id)
  {
    assert FiresAt(attrs, descs, table, id, 0);
  }

  class Bl1 {
    const attrs: Attrs
    const slots: array<Ref>
    var descs: Descs
    var secExec: Ref
    var world: World
    var mem: Memory
    var halted: bool
    ghost var via: set<Id>                 // copied since their last reset
    ghost var authed: set<Id>              // authenticated since their last reset
    ghost var blocks: map<Id, seq<Byte>>   // the blocks copied, one behind the other, of what no world wrote over

    ghost function Now(): View
      reads this`descs, this`secExec, this`world, this`mem, this`via, this`authed, this`blocks, slots
    {
      View(descs, slots[..], secExec, world, mem, via, authed, blocks)
    }

    ghost predicate Valid()
      reads this`descs, this`secExec, this`world, this`mem, this`via, this`authed, this`blocks, slots
    {
      Inv(attrs, Now())
    }

    /** bl1_fwu_image_check_overlaps: goes through the table until an assertion fires or an overlap is found. */
    method CheckOverlaps(id: Id) returns (v: Verdict)
      requires attrs.Keys == descs.Keys && id in attrs && 0 < descs[id].size && attrs[id].base + descs[id].size <= U64
      requires forall i :: i in attrs ==> attrs[i].base < U64 && descs[i].size < U32
      requires forall r :: r in slots[..] && r.Image? ==> r.id in attrs
      ensures v.Fine? <==> AllClear(attrs, descs, slots[..], id)
      ensures v.Fires? <==> AssertionFires(attrs, descs, slots[..], id)
      ensures v.Overlaps? <==> exists k :: OverlapsAt(attrs, descs, slots[..], id, k)
      ensures !v.Fires? ==> (v.Overlaps? <==> exists k, a: nat :: SharesAt(attrs, descs, slots[..], id, k, a))
    {
      var base, end := attrs[id].base, attrs[id].base + descs[id].size - 1;
      for i := 0 to slots.Length
        invariant forall j :: 0 <= j < i ==> Clear(attrs, descs, slots[j], id)
      {
        var r := slots[i];
        assert r == slots[..][i];
        if r.Image? && r.id != id {
          var d := descs[r.id];
          if d.state.Reset? {
            assert FiresAt(attrs, descs, slots[..], id, i);
            NotBoth(attrs, descs, slots[..], id);
            return Fires;
          }
          if d.size != 0 {
            var otherBase := attrs[r.id].base;
            var otherEnd := (otherBase + d.size - 1) % U64;
            if !(otherEnd > otherBase) {
              assert FiresAt(attrs, descs, slots[..], id, i);
              NotBoth(attrs, descs, slots[..], id);
              return Fires;
            }
            if !(otherEnd < base || end < otherBase) {
              assert OverlapsAt(attrs, descs, slots[..], id, i);
              OverlapIsNoFiring(attrs, descs, slots[..], id, i);
              RefusedIfShared(attrs, descs, slots[..], id);
              return Overlaps;
            }
          }
        }
      }
      NotBoth(attrs, descs, slots[..], id);
      RefusedIfShared(attrs, descs, slots[..], id);
      return Fine;
    }

    /** bl1_fwu_add_loaded_id */
    method AddLoadedId(id: Id) returns (ok: bool)
      modifies slots
      ensures ok ==> Added(old(slots[..]), slots[..], id)
      ensures !ok ==> slots[..] == old(slots[..])
      ensures ok <==> HasSlot(old(slots[..]), id)
    {
      for i := 0 to slots.Length
        invariant slots[..] == old(slots[..]) && Image(id) !in slots[..i]
      {
        if slots[i] == Image(id) {
          assert slots[..][i] == Image(id);
          return true;
        }
      }
      assert slots[..slots.Length] == slots[..];
      for i := 0 to slots.Length
        invariant slots[..] == old(slots[..]) && Invalid !in slots[..i]
      {
        if slots[i] == Invalid {
          assert Invalid == slots[..][i];
          assert FirstEmpty(slots[..], i) by { assert forall k :: 0 <= k < i ==> slots[..][k] == slots[..i][k]; }
          slots[i] := Image(id);
          assert slots[..] == old(slots[..])[i := Image(id)];
          return true;
        }
      }
      assert slots[..slots.Length] == slots[..];
      return false;
    }

    /** bl1_fwu_remove_loaded_id */
    method RemoveLoadedId(id: Id) returns (ok: bool)
      modifies slots
      ensures ok ==> Removed(old(slots[..]), slots[..], id)
      ensures !ok ==> slots[..] == old(slots[..]) && Image(id) !in slots[..]
    {
      for i := 0 to slots.Length
        invariant slots[..] == old(slots[..]) && Image(id) !in slots[..i]
      {
        if slots[i] == Image(id) {
          assert slots[..][i] == Image(id);
          slots[i] := Invalid;
          assert slots[..] == old(slots[..])[i := Invalid];
          return true;
        }
      }
      assert slots[..slots.Length] == slots[..];
      return false;
    }

    /** The checks of a first copy: on success the range of the image is recorded and meets no image in the table. */
    method BeginCopy(id: Id, size: nat) returns (r: Status)
      requires Valid() && !halted && id in attrs && id in descs && attrs[id].secure && descs[id].state.Reset? && size < U32
      modifies this`descs, this`halted
      ensures Valid() && forall j :: j in attrs && j != id ==> j in descs && descs[j] == old(descs[j])
      ensures id in descs && descs[id].state.Reset? && Resized(old(descs[id]), descs[id])
      ensures halted <==> 0 < size <= attrs[id].max && AssertionFires(attrs, Sized(old(descs), id, size), slots[..], id)
      ensures r.Success? <==> 0 < size <= attrs[id].max && AllClear(attrs, Sized(old(descs), id, size), slots[..], id)
      ensures r.Success? ==> !halted && descs[id] == Desc(Reset, size, 0) && Loadable(attrs, descs, slots[..], id)
      ensures (r.ENoMem? <==> size == 0 || size > attrs[id].max) && !r.EAuth? && (r.ENoMem? ==> descs == old(descs))
      ensures r.EPerm? && !halted ==> descs[id] == old(descs[id]).(size := 0)
    {
      hide Valid, Loadable, AssertionFires, Apart, ImagesOk, WorldOk, MemOk;
      ValidParts(id);
      if size == 0 || size > attrs[id].max {
        return ENoMem;
      }
      Resize(id, descs[id].(size := size));
      ValidParts(id);
      var v := CheckOverlaps(id);
      match v {
        case Fires =>
          FiringIsNotClear(attrs, descs, slots[..], id);
          halted := true;
          return EPerm;
        case Overlaps =>
          Resize(id, descs[id].(size := 0));
          return EPerm;
        case Fine =>
          FiringIsNotClear(attrs, descs, slots[..], id);
          assert forall r :: r in slots[..] && r.Image? ==> Clear(attrs, descs, r, id);
          ClearStays(id, descs[id].(copied := 0));
          Resize(id, descs[id].(copied := 0));
          LoadableNow(id);
          return Success;
      }
    }

    lemma ValidParts(id: Id)
      requires Valid() && id in attrs
      ensures attrs.Keys == descs.Keys && forall i :: i in attrs ==> attrs[i].base < U64 && descs[i].size < U32
      ensures forall r :: r in slots[..] && r.Image? ==> r.id in attrs
      ensures attrs[id].base + attrs[id].max <= U64
    {
      forall i | i in attrs ensures descs[i].size < U32 { InvImage(attrs, Now(), i); }
    }

    lemma ClearStays(id: Id, d: Desc)
      requires attrs.Keys == descs.Keys && id in attrs && d.size == descs[id].size && d.state == descs[id].state
      requires forall r :: r in slots[..] && r.Image? ==> r.id in attrs && Clear(attrs, descs, r, id)
      ensures descs[id := d].Keys == attrs.Keys
      ensures forall r :: r in slots[..] && r.Image? ==> Clear(attrs, descs[id := d], r, id)
    {
    }

    lemma LoadableNow(id: Id)
      requires attrs.Keys == descs.Keys && id in attrs && attrs[id].secure && descs[id].state.Reset?
      requires descs[id].copied == 0 && 0 < descs[id].size <= attrs[id].max
      requires forall r :: r in slots[..] && r.Image? ==> r.id in attrs && Clear(attrs, descs, r, id)
      ensures Loadable(attrs, descs, slots[..], id)
    {
    }

    method Resize(id: Id, d: Desc)
      requires Valid() && id in attrs && id in descs && descs[id].state.Reset? && d.state.Reset?
      requires d.size < U32 && (d.copied == 0 || d.copied == descs[id].copied)
      modifies this`descs
      ensures Valid() && descs == old(descs)[id := d]
    {
      hide Inv;
      InvImage(attrs, Now(), id);
      ResizeKeeps(attrs, Now(), id, d);
      ghost var v := Now().(descs := descs[id := d]);
      descs := descs[id := d];
      assert Now() == v;
    }

    /** What an operation on one image, or on none, leaves as it was. */
    twostate predicate Others(id: Id)
      reads this, slots
    {
      forall j :: j in attrs && j != id ==> j in descs && j in old(descs) && descs[j] == old(descs[j])
    }

    /** A copy that failed: at most the recorded size changed, and the table. */
    twostate predicate Untouched(id: Id)
      reads this
    {
      && mem == old(mem) && via == old(via) && blocks == old(blocks) && authed == old(authed)
      && (id in attrs ==> id in old(descs) && id in descs && descs[id].state == old(descs[id].state)
                          && Resized(old(descs[id]), descs[id]))
    }

    /** bl1_fwu_image_copy */
    method ImageCopy(id: Id, src: nat, blockSize: nat, imageSize: nat, mapped: bool, preLoad: bool) returns (r: Status)
      requires Valid() && !halted && src < U64 && blockSize < U32 && imageSize < U32
      modifies this, slots
      ensures Valid() && world == old(world) && secExec == old(secExec)
      ensures Others(id) && (!r.Success? ==> Untouched(id))
      ensures halted <==> CopyHalts(attrs, old(Now()), id, src, blockSize, imageSize)
      ensures var admitted := CopyAdmitted(attrs, old(Now()), id, src, blockSize, imageSize, mapped);
        && (r.Success? <==> admitted && (old(descs[id].state).Reset? ==> preLoad))
        && if admitted then Added(old(slots[..]), slots[..], id) else slots[..] == old(slots[..])
      ensures r.Success? ==> BlockCopied(attrs, old(Now()), Now(), id, src, blockSize, imageSize)
      ensures !r.EAuth? && (r.ENoMem? <==> CopyLacks(attrs, old(Now()), id, src, blockSize, imageSize, mapped))
      ensures !halted && !r.Success? && id in attrs && id in descs && id in old(descs) ==>
                descs[id] == AfterRefusal(attrs, old(Now()), id, src, blockSize, imageSize)
    {
      if id !in attrs || world.Secure? || !attrs[id].secure {
        KeysAgree();
        return EPerm;
      }
      hide Inv, Loadable, Moved, BlockCopied, AssertionFires, AllClear, Added, HasSlot;
      KeysAgree();
      if !descs[id].state.Reset? && !descs[id].state.Copying? {
        return EPerm;
      }
      if src == 0 || blockSize == 0 || src > U64 - 1 - (blockSize - 1) {
        return ENoMem;
      }
      r := CopyChecked(id, src, blockSize, imageSize, mapped, preLoad);
    }

    /** A copy after the checks of its arguments. */
    method CopyChecked(id: Id, src: nat, blockSize: nat, imageSize: nat, mapped: bool, preLoad: bool) returns (r: Status)
      requires Valid() && !halted && 0 < blockSize && imageSize < U32
      requires id in attrs && id in descs && attrs[id].secure && (descs[id].state.Reset? || descs[id].state.Copying?)
      modifies this`descs, this`mem, this`via, this`blocks, this`halted, slots
      ensures Valid() && Others(id) && (!r.Success? ==> Untouched(id))
      ensures var first, fits := old(descs[id].state).Reset?, 0 < imageSize <= attrs[id].max;
        var sized := Sized(old(descs), id, imageSize);
        var admitted := mapped && HasSlot(old(slots[..]), id) && (first ==> fits && AllClear(attrs, sized, old(slots[..]), id));
        && (halted <==> first && fits && AssertionFires(attrs, sized, old(slots[..]), id))
        && (r.Success? <==> admitted && (first ==> preLoad)) && !r.EAuth?
        && (r.ENoMem? <==> || (first && !fits)
                           || (&& (first ==> AllClear(attrs, sized, old(slots[..]), id))
                               && (!mapped || !HasSlot(old(slots[..]), id))))
        && (!halted && !r.Success? ==>
              descs[id] == if !first || !fits then old(descs[id])
                           else if AllClear(attrs, sized, old(slots[..]), id) then Desc(Reset, imageSize, 0)
                           else old(descs[id]).(size := 0))
        && if admitted then Added(old(slots[..]), slots[..], id) else slots[..] == old(slots[..])
      ensures r.Success? ==> BlockCopied(attrs, old(Now()), Now(), id, src, blockSize, imageSize)
    {
      hide Inv, Loadable, Moved, BlockCopied, AssertionFires, AllClear, Added, HasSlot;
      KeysAgree();
      if descs[id].state.Copying? {
        CopyingSizes(id);
        assert descs[id].copied != 0;
        assert descs[id].size != 0;
        assert descs[id].copied < descs[id].size;
      } else {
        r := BeginCopy(id, imageSize);
        FiringIsNotClear(attrs, Sized(old(descs), id, imageSize), slots[..], id);
        if !r.Success? {
          KeysAgree();
          return;
        }
      }
      KeysAgree();
      LoadableSizes(attrs, descs, slots[..], id);
      ghost var v := Now();
      r := CopyBlock(id, src, blockSize, mapped, preLoad);
      if r.Success? {
        MovedIsCopied(attrs, old(Now()), v, Now(), id, src, blockSize, imageSize);
      }
    }

    lemma KeysAgree()
      requires Valid()
      ensures attrs.Keys == descs.Keys
    {
    }

    /** The assertions at the start of a further copy never fire. */
    lemma CopyingSizes(id: Id)
      requires Valid() && id in attrs && id in descs && descs[id].state.Copying?
      ensures 0 < descs[id].copied < descs[id].size <= attrs[id].max && Loadable(attrs, descs, slots[..], id)
      ensures id in via
    {
      InvImage(attrs, Now(), id);
    }

    /** The second half of a copy: the clipped block is copied behind what there is. */
    method CopyBlock(id: Id, src: nat, blockSize: nat, mapped: bool, preLoad: bool) returns (r: Status)
      requires Valid() && !halted && id in attrs && attrs.Keys == descs.Keys && 0 < blockSize
      requires Loadable(attrs, descs, slots[..], id)
      modifies this`descs, this`mem, this`via, this`blocks, slots
      ensures Valid()
      ensures !r.Success? ==> descs == old(descs) && mem == old(mem) && via == old(via) && blocks == old(blocks)
      ensures r.Success? ==> Moved(attrs, old(Now()), Now(), id, src, blockSize)
      ensures forall j :: j in attrs && j != id ==> descs[j] == old(descs[j])
      ensures attrs.Keys == descs.Keys
      ensures var admitted := mapped && HasSlot(old(slots[..]), id);
        && (r.Success? <==> admitted && (old(descs[id].state).Reset? ==> preLoad)) && (r.ENoMem? <==> !admitted) && !r.EAuth?
        && if admitted then Added(old(slots[..]), slots[..], id) else slots[..] == old(slots[..])
    {
      hide Inv, Read, Write, Advanced, Prefix, Loadable, Added, HasSlot;
      LoadableSizes(attrs, descs, slots[..], id);
      var remaining := descs[id].size - descs[id].copied;
      var n := if blockSize > remaining then remaining else blockSize;
      if !mapped {
        return ENoMem;
      }
      var ok := TakeSlot(id);
      if !ok {
        return ENoMem;
      }
      if descs[id].state.Reset? && !preLoad {
        return EPerm;  // the id stays in the table
      }
      var bytes := Read(mem, src, n);
      ReadLength(mem, src, n);
      StoreBlock(id, bytes);
      return Success;
    }

    method TakeSlot(id: Id) returns (ok: bool)
      requires Valid() && id in attrs && attrs.Keys == descs.Keys
      modifies slots
      ensures Valid() && (ok <==> HasSlot(old(slots[..]), id))
      ensures if ok then Added(old(slots[..]), slots[..], id) && Image(id) in slots[..] else slots[..] == old(slots[..])
      ensures old(Loadable(attrs, descs, slots[..], id)) ==> Loadable(attrs, descs, slots[..], id)
    {
      hide Inv, Loadable, Added, HasSlot;
      ghost var v := Now();
      ok := AddLoadedId(id);
      if ok {
        AddKeeps(attrs, v, slots[..], id);
        assert Now() == v.(table := slots[..]);
        if Loadable(attrs, descs, v.table, id) {
          LoadableAfterAdd(attrs, descs, v.table, slots[..], id);
        }
      } else {
        assert Now() == v;
      }
    }

    method StoreBlock(id: Id, bytes: seq<Byte>)
      requires Valid() && id in attrs && attrs.Keys == descs.Keys && Loadable(attrs, descs, slots[..], id)
      requires Image(id) in slots[..] && 0 < |bytes| <= descs[id].size - descs[id].copied
      modifies this`descs, this`mem, this`via, this`blocks
      ensures Valid() && Now() == AfterCopy(attrs, old(Now()), id, bytes)
    {
      hide Inv, Write, Advanced, Prefix, Recorded, Loadable;
      ghost var v := Now();
      CopyKeeps(attrs, v, id, bytes);
      blocks := Recorded(descs, blocks, id, bytes);
      via := via + {id};
      mem := Write(mem, attrs[id].base + descs[id].copied, bytes);
      descs := descs[id := Advanced(descs[id], |bytes|)];
      assert Now() == AfterCopy(attrs, v, id, bytes);
    }

    /** The state in which the running world may have an image authenticated. */
    function MayAuth(id: Id): State
      requires id in attrs
      reads this`world
    {
      if world.Normal? && attrs[id].secure then Copied else Reset
    }

    /** Memory after an image failed to authenticate: what was copied is cleared. */
    ghost function Wiped(m: Memory, id: Id, d: Desc): Memory
      requires id in attrs
    {
      if d.state.Copied? then Write(m, attrs[id].base, Zeros(d.size)) else m
    }

    /** bl1_fwu_image_auth */
    method ImageAuth(id: Id, src: nat, imageSize: nat, mapped: bool, genuine: bool, postLoad: bool) returns (r: Status)
      requires Valid() && !halted && src < U64 && imageSize < U32
      modifies this, slots
      ensures Valid() && world == old(world) && secExec == old(secExec) && blocks == old(blocks) && Others(id)
      ensures r.EPerm? || r.ENoMem? ==> !halted && descs == old(descs) && slots[..] == old(slots[..])
      ensures r.EPerm? || r.ENoMem? ==> mem == old(mem) && via == old(via) && authed == old(authed)
      ensures r.Success? ==> via == old(via) && authed == old(authed) + {id}
      ensures r.EPerm? <==> id !in attrs || (id in old(descs) && old(descs[id].state) != MayAuth(id))
      ensures !r.EPerm? ==>
                && id in attrs && id in old(descs)
                && var inPlace := old(descs[id].state).Reset?;
                   var admitted := inPlace ==> && src != 0 && 0 < imageSize && src + imageSize <= U64 && mapped
                                               && HasSlot(old(slots[..]), id);
                   && (r.ENoMem? <==> !admitted) && (r.EAuth? <==> admitted && !genuine) && (r.Success? <==> admitted && genuine)
                   && (halted <==> r.Success? && !postLoad)
                   && (r.Success? ==> if inPlace then Added(old(slots[..]), slots[..], id) else slots[..] == old(slots[..]))
      ensures r.EAuth? ==> via == old(via) - {id} && authed == old(authed) - {id}
      ensures r.Success? ==>
                && id in attrs && id in descs && id in old(descs) && mem == old(mem) && Image(id) in slots[..]
                && old(descs[id].state) == MayAuth(id)
                && descs[id] == Desc(Authenticated, if old(descs[id]).state.Copied? then old(descs[id]).size else imageSize,
                                     old(descs[id]).copied)
      ensures r.EAuth? ==>
                && !halted && id in attrs && id in descs && id in old(descs) && Image(id) !in slots[..]
                && Unlisted(old(slots[..]), slots[..], id)
                && descs[id] == Desc(Reset, if old(descs[id]).state.Copied? then old(descs[id]).size else imageSize,
                                     old(descs[id]).copied)
                && mem == Wiped(old(mem), id, old(descs[id]))
    {
      hide Inv, Write, Zeros, Added, HasSlot, Unlisted, Removed;
      KeysAgree();
      if id !in attrs {
        return EPerm;
      }
      if descs[id].state != MayAuth(id) {
        return EPerm;
      }
      InvImage(attrs, Now(), id);
      if descs[id].state.Reset? {
        r := AdmitInPlace(id, src, imageSize, mapped);
        if !r.Success? {
          return;
        }
      }
      if !genuine {
        ghost var listed := slots[..];
        Discard(id);
        AddThenRemove(old(slots[..]), listed, slots[..], id);
        return EAuth;
      }
      MarkAuthenticated(id);
      if !postLoad {
        halted := true;
      }
      return Success;
    }

    /** The checks for an image that is authenticated where it is. */
    method AdmitInPlace(id: Id, src: nat, imageSize: nat, mapped: bool) returns (r: Status)
      requires Valid() && id in attrs && id in descs && descs[id].state.Reset? && imageSize < U32
      modifies this`descs, slots
      ensures Valid() && (r.Success? || r.ENoMem?)
      ensures r.Success? <==> src != 0 && 0 < imageSize && src + imageSize <= U64 && mapped && HasSlot(old(slots[..]), id)
      ensures if r.Success? then
                descs == Sized(old(descs), id, imageSize) && Added(old(slots[..]), slots[..], id) && Image(id) in slots[..]
              else descs == old(descs) && slots[..] == old(slots[..])
    {
      hide Inv, Added, HasSlot;
      KeysAgree();
      if src == 0 || imageSize == 0 || src > U64 - 1 - (imageSize - 1) {
        return ENoMem;
      }
      if !mapped {
        return ENoMem;
      }
      var ok := TakeSlot(id);
      if !ok {
        return ENoMem;
      }
      Resize(id, descs[id].(size := imageSize));
      return Success;
    }

    /** Authentication failed. */
    method Discard(id: Id)
      requires Valid() && id in attrs && id in descs && Image(id) in slots[..]
      requires descs[id].state.Copied? || descs[id].state.Reset?
      modifies this`descs, this`mem, this`via, this`authed, slots
      ensures Valid() && descs == old(descs)[id := old(descs[id]).(state := Reset)] && Image(id) !in slots[..]
      ensures Removed(old(slots[..]), slots[..], id)
      ensures via == old(via) - {id} && authed == old(authed) - {id}
      ensures mem == Wiped(old(mem), id, old(descs[id]))
    {
      hide Inv, Write, Zeros;
      InvImage(attrs, Now(), id);
      ghost var v := Now();
      ghost var n := if descs[id].state.Copied? then descs[id].size else 0;
      if descs[id].state.Copied? {
        mem := Write(mem, attrs[id].base, Zeros(descs[id].size));
      }
      descs := descs[id := descs[id].(state := Reset)];
      via, authed := via - {id}, authed - {id};
      var ok := RemoveLoadedId(id);
      ResetKeeps(attrs, v, id, descs[id], n, slots[..]);
      assert Now() == AfterReset(attrs, v, id, descs[id], n, slots[..]);
    }

    method MarkAuthenticated(id: Id)
      requires Valid() && id in attrs && id in descs && Image(id) in slots[..]
      requires descs[id].state == MayAuth(id)
      modifies this`descs, this`authed
      ensures Valid() && descs == old(descs)[id := old(descs[id]).(state := Authenticated)]
      ensures authed == old(authed) + {id}
    {
      hide Inv;
      InvImage(attrs, Now(), id);
      ghost var v := Now();
      AuthKeeps(attrs, v, id, descs[id].(state := Authenticated));
      descs := descs[id := descs[id].(state := Authenticated)];
      authed := authed + {id};
      assert Now() == v.(descs := descs, authed := authed);
    }

    /** bl1_fwu_image_execute and bl1_prepare_next_image */
    method ImageExecute(id: Id) returns (r: Status)
      requires Valid() && !halted
      modifies this`descs, this`secExec, this`world
      ensures Valid() && Others(id)
      ensures r.Success? <==> && id in attrs && old(world).Normal? && attrs[id].secure && attrs[id].executable
                              && id in old(descs) && old(descs[id].state.Authenticated?)
      ensures !r.Success? ==> r.EPerm?
      ensures r.Success? ==> id in old(descs) && descs == old(descs)[id := old(descs[id]).(state := Executed)]
      ensures r.Success? ==> world.Secure? && secExec == Image(id) && id in authed
      ensures !r.Success? ==> descs == old(descs) && world == old(world) && secExec == old(secExec)
    {
      hide Inv;
      KeysAgree();
      if id !in attrs || world.Secure? || !attrs[id].secure || !attrs[id].executable || !descs[id].state.Authenticated? {
        return EPerm;
      }
      Switch(id, Executed, Secure);
      return Success;
    }

    method Switch(id: Id, state: State, to: World)
      requires Valid() && id in attrs && id in descs && attrs[id].secure && attrs[id].executable
      requires || (to.Secure? && world.Normal? && state.Executed?
                   && (descs[id].state.Authenticated? || descs[id].state.Interrupted?))
               || (to.Normal? && descs[id].state.Executed? && state.Interrupted?)
      modifies this`descs, this`secExec, this`world
      ensures Valid() && descs == old(descs)[id := old(descs[id]).(state := state)] && secExec == Image(id) && world == to
      ensures id in authed
    {
      hide Inv;
      InvImage(attrs, Now(), id);
      ghost var v := Now();
      SwitchKeeps(attrs, v, id, descs[id].(state := state), Image(id), to);
      descs := descs[id := descs[id].(state := state)];
      secExec := Image(id);
      world := to;
      assert Now() == v.(descs := descs, secExec := secExec, world := world);
    }

    /** bl1_fwu_image_resume */
    method ImageResume() returns (r: Status)
      requires Valid() && !halted
      modifies this`descs, this`secExec, this`world, this`halted
      ensures Valid() && mem == old(mem) && secExec == old(secExec)
      ensures old(world).Secure? ==>
                && !halted && r.Success? && world.Normal? && secExec == old(secExec) && secExec.Image? && secExec.id in old(descs)
                && descs == old(descs)[secExec.id := old(descs[secExec.id]).(state := Interrupted)]
      ensures old(world).Normal? ==>
                if old(secExec).Invalid? then r.EPerm? && !halted && descs == old(descs) && world.Normal?
                else old(secExec).id in old(descs) &&
                     if old(descs[secExec.id].state.Interrupted?)
                     then !halted && r.Success? && world.Secure? && secExec == old(secExec)
                          && descs == old(descs)[secExec.id := old(descs[secExec.id]).(state := Executed)]
                     else halted && descs == old(descs) && world.Normal?
    {
      hide Inv;
      KeysAgree();
      InvRecorded(attrs, Now());
      if world.Normal? && secExec.Invalid? {
        return EPerm;
      }
      InvImage(attrs, Now(), secExec.id);
      if world.Secure? {
        assert descs[secExec.id].state.Executed?;
        Switch(secExec.id, Interrupted, Normal);
      } else {
        if !descs[secExec.id].state.Interrupted? {
          halted := true;
          return EPerm;
        }
        Switch(secExec.id, Executed, Secure);
      }
      return Success;
    }

    /** bl1_fwu_sec_image_done */
    method SecImageDone() returns (r: Status)
      requires Valid() && !halted
      modifies this`descs, this`secExec, this`world, this`via, this`authed, slots
      ensures Valid()
      ensures old(world).Normal? ==> r.EPerm? && old(Now()) == Now()
      ensures old(world).Secure? ==>
                && r.Success? && world.Normal? && secExec.Invalid? && old(secExec).Image? && old(secExec).id in old(descs)
                && Removed(old(slots[..]), slots[..], old(secExec).id) && Image(old(secExec).id) !in slots[..]
                && descs == old(descs)[old(secExec).id := old(descs[secExec.id]).(state := Reset)]
                && via == old(via) - {old(secExec).id} && authed == old(authed) - {old(secExec).id}
    {
      hide Inv;
      KeysAgree();
      if world.Normal? {
        return EPerm;
      }
      InvRecorded(attrs, Now());
      var id := secExec.id;
      InvImage(attrs, Now(), id);
      assert descs[id].state.Executed?;
      ghost var v := Now();
      var ok := RemoveLoadedId(id);
      assert ok;
      DoneKeeps(attrs, v, id, slots[..]);
      RemovedIsGone(attrs, v, id, slots[..]);
      descs := descs[id := descs[id].(state := Reset)];
      secExec := Invalid;
      world := Normal;
      via, authed := via - {id}, authed - {id};
      assert Now() == AfterReset(attrs, v, id, descs[id], 0, slots[..]).(secExec := Invalid, world := Normal);
      return Success;
    }

    /** bl1_fwu_image_reset: what a call from the normal world does to an image that is not reset and does not run. */
    ghost predicate ResetDone(v: View, v': View, id: Id, r: Status)
      requires id in attrs && id in v.descs
    {
      if Image(id) !in v.table then r.EPerm? && v' == v
      else
        && r.Success? && v'.descs == v.descs[id := Desc(Reset, 0, 0)]
        && Removed(v.table, v'.table, id) && Image(id) !in v'.table
        && v'.via == v.via - {id} && v'.authed == v.authed - {id} && v'.blocks == Unspoilt(attrs, v, id, v.descs[id].copied)
        && v'.mem == if v.descs[id].copied == 0 then v.mem else Write(v.mem, attrs[id].base, Zeros(v.descs[id].copied))
    }

    method ImageReset(id: Id) returns (r: Status)
      requires Valid() && !halted
      modifies this, slots
      ensures Valid() && world == old(world) && secExec == old(secExec) && Others(id)
      ensures old(world).Secure? || id !in attrs ==> r.EPerm? && !halted && old(Now()) == Now()
      ensures old(world).Normal? && id in attrs && id in old(descs) ==>
                var state := old(descs[id].state);
                && (state.Reset? ==> r.Success? && !halted && old(Now()) == Now())
                && (state.Executed? ==> halted && old(Now()) == Now())
                && (!state.Reset? && !state.Executed? ==> !halted && ResetDone(old(Now()), Now(), id, r))
    {
      hide Inv, ResetDone;
      KeysAgree();
      if id !in attrs || world.Secure? {
        return EPerm;
      }
      var state := descs[id].state;
      if state.Reset? {
        return Success;
      } else if state.Executed? {
        halted := true;
        return EPerm;
      }
      r := ClearImage(id);
    }

    method ClearImage(id: Id) returns (r: Status)
      requires Valid() && id in attrs && id in descs && !descs[id].state.Reset? && !descs[id].state.Executed?
      modifies this`descs, this`mem, this`via, this`authed, this`blocks, slots
      ensures Valid() && Others(id) && ResetDone(old(Now()), Now(), id, r)
    {
      hide Inv, Write, Zeros, Unspoilt, Removed;
      InvImage(attrs, Now(), id);
      ghost var v := Now();
      var ok := RemoveLoadedId(id);
      if !ok {
        assert Now() == v;
        return EPerm;
      }
      ghost var n := descs[id].copied;
      if descs[id].copied != 0 {
        assert attrs[id].secure;
        mem := Write(mem, attrs[id].base, Zeros(descs[id].copied));
      }
      blocks := Unspoilt(attrs, v, id, n);
      descs := descs[id := Desc(Reset, 0, 0)];
      via, authed := via - {id}, authed - {id};
      ResetKeeps(attrs, v, id, Desc(Reset, 0, 0), n, slots[..]);
      assert Now() == AfterReset(attrs, v, id, Desc(Reset, 0, 0), n, slots[..]);
      return Success;
    }

    /** Between two calls the world that runs may write anywhere; what it overwrites of a waiting image is recorded no more. */
    method Store(at: nat, bytes: seq<Byte>)
      requires Valid()
      modifies this`mem, this`blocks
      ensures Valid() && mem == Write(old(mem), at, bytes) && blocks == old(blocks) - Met(attrs, descs, at, |bytes|)
    {
      hide Inv, Write, Met;
      ghost var v := Now();
      StoreKeeps(attrs, v, at, bytes);
      mem := Write(mem, at, bytes);
      blocks := blocks - Met(attrs, descs, at, |bytes|);
      assert Now() == v.(mem := mem, blocks := blocks);
    }

    constructor (attrs: Attrs, descs: Descs, slots: array<Ref>, mem: Memory)
      requires AtReset(attrs, descs, slots[..])
      ensures Valid() && !halted && this.attrs == attrs && this.slots == slots && Now() == Start(descs, slots[..], mem)
    {
      this.attrs, this.descs, this.slots, this.mem := attrs, descs, slots, mem;
      secExec, world, halted := Invalid, Normal, false;
      via, authed, blocks := {}, {}, map[];
    }

    /** Three images, of which the second overlaps the first, before anything is loaded. */
    static method ThreeImages(mem: Memory) returns (b: Bl1)
      ensures fresh(b) && fresh(b.slots) && b.Valid() && !b.halted && b.world.Normal? && b.mem == mem && b.attrs == ThreeAttrs()
      ensures b.descs == map[0 := Desc(Reset, 0, 0), 1 := Desc(Reset, 0, 0), 2 := Desc(Reset, 0, 0)]
      ensures b.slots[..] == [Invalid, Invalid, Invalid]
    {
      var slots := new Ref[3](_ => Invalid);
      b := new Bl1(ThreeAttrs(), map[0 := Desc(Reset, 0, 0), 1 := Desc(Reset, 0, 0), 2 := Desc(Reset, 0, 0)], slots, mem);
    }

    /** An image of one byte is copied; copying any other image then fails an assertion. */
    static method OneByteHalts(mem: Memory) returns (b: Bl1)
      ensures fresh(b) && b.halted
    {
      hide Inv, AllClear, AssertionFires, Added, HasSlot;
      b := ThreeImages(mem);
      EmptySlot(b.slots[..], 0, 2);
      EmptyIsClear(b.attrs, Sized(b.descs, 2, 1), b.slots[..], 2);
      var r := b.ImageCopy(2, 1000, 1, 1, true, true);
      assert r.Success? && b.descs[2] == Desc(Copied, 1, 1);
      FirstFires(b.attrs, Sized(b.descs, 0, 4), b.slots[..], 0);
      r := b.ImageCopy(0, 1000, 4, 4, true, true);
    }

    /** The platform refuses the copy of an image; copying any other image then fails an assertion. */
    static method FailedHookHalts(mem: Memory) returns (b: Bl1)
      ensures fresh(b) && b.halted
    {
      hide Inv, AllClear, AssertionFires, Added, HasSlot, BlockCopied;
      b := ThreeImages(mem);
      EmptySlot(b.slots[..], 0, 2);
      EmptyIsClear(b.attrs, Sized(b.descs, 2, 4), b.slots[..], 2);
      var r := b.ImageCopy(2, 1000, 4, 4, true, false);
      assert !r.Success? && b.descs[2].state.Reset?;
      FirstFires(b.attrs, Sized(b.descs, 0, 4), b.slots[..], 0);
      r := b.ImageCopy(0, 1000, 4, 4, true, true);
    }

    /** The first four bytes from address 1000 on are copied as the whole of an image. */
    method CopyFour(id: Id, k: nat)
      requires Valid() && !halted && world.Normal? && attrs == ThreeAttrs()
      requires id in attrs && id in descs && descs[id].state.Reset?
      requires FirstEmpty(slots[..], k) && Image(id) !in slots[..] && AllClear(attrs, Sized(descs, id, 4), slots[..], id)
      modifies this, slots
      ensures Valid() && !halted && world.Normal? && Others(id) && id in descs && descs[id] == Desc(Copied, 4, 4)
      ensures slots[..] == old(slots[..])[k := Image(id)]
      ensures forall a :: InRange(a, attrs[id].base, 4) ==> mem(a) == old(mem)(1000 + a - attrs[id].base)
      ensures forall a: nat :: !InRange(a, attrs[id].base, 4) ==> mem(a) == old(mem)(a)
    {
      hide Inv, AllClear, AssertionFires, Added, HasSlot, FirstEmpty;
      ghost var sized := Sized(descs, id, 4);
      FiringIsNotClear(attrs, sized, slots[..], id);
      EmptySlot(slots[..], k, id);
      var r := ImageCopy(id, 1000, 4, 4, true, true);
      assert r.Success?;
    }

    /** An image is copied and fails to authenticate: its sizes stay. */
    static method StaleSizes(mem: Memory) returns (b: Bl1)
      ensures fresh(b) && fresh(b.slots) && b.Valid() && !b.halted && b.world.Normal? && b.attrs == ThreeAttrs()
      ensures b.attrs.Keys == b.descs.Keys && b.descs[0] == Desc(Reset, 4, 4)
      ensures b.descs[1] == Desc(Reset, 0, 0) && b.descs[2] == Desc(Reset, 0, 0)
      ensures b.slots[..] == [Invalid, Invalid, Invalid] && b.mem(1000) == mem(1000)
    {
      hide Inv, AllClear, AssertionFires, Added, HasSlot, Zeros;
      b := ThreeImages(mem);
      EmptyIsClear(b.attrs, Sized(b.descs, 0, 4), b.slots[..], 0);
      b.CopyFour(0, 0);
      assert b.descs[0].state == b.MayAuth(0);
      var r := b.ImageAuth(0, 0, 0, true, false, true);
      assert r.EAuth?;
      b.KeysAgree();
    }

    /** After that image 1, which overlaps 0, is copied, and image 2. */
    static method WaitingOverStale(mem: Memory) returns (b: Bl1)
      ensures fresh(b) && fresh(b.slots) && b.Valid() && !b.halted && b.world.Normal? && b.attrs == ThreeAttrs()
      ensures b.attrs.Keys == b.descs.Keys && b.descs[0] == Desc(Reset, 4, 4)
      ensures b.descs[1] == Desc(Copied, 4, 4) && b.descs[2] == Desc(Copied, 4, 4)
      ensures b.slots[..] == [Image(1), Image(2), Invalid] && b.mem(2) == mem(1000)
    {
      hide Inv, AllClear, AssertionFires, Added, HasSlot, FirstEmpty;
      b := StaleSizes(mem);
      EmptyIsClear(b.attrs, Sized(b.descs, 1, 4), b.slots[..], 1);
      FirstTwoEmpty();
      b.CopyFour(1, 0);
      b.KeysAgree();
      assert b.slots[..] == [Image(1), Invalid, Invalid];
      TwoApart(Sized(b.descs, 2, 4));
      b.CopyFour(2, 1);
      b.KeysAgree();
    }

    /** After that image 2 runs in the secure world and authenticates 0 in place; resetting 0 clears bytes of image 1. */
    static method StaleSizesClear(mem: Memory) returns (b: Bl1, ghost was: View)
      ensures fresh(b) && 1 in was.descs && was.descs[1] == Desc(Copied, 4, 4) && was.mem(2) == mem(1000)
      ensures 1 in b.descs && b.descs[1] == Desc(Copied, 4, 4) && b.mem(2) == 0
    {
      hide Inv, AllClear, AssertionFires, Added, HasSlot, Removed, FirstEmpty;
      b := WaitingOverStale(mem);
      was := b.Now();
      var r := b.ImageAuth(2, 0, 0, true, true, true);
      assert r.Success?;
      r := b.ImageExecute(2);
      assert r.Success?;
      LastEmpty();
      r := b.ImageAuth(0, 1000, 4, true, true, true);
      assert r.Success?;
      r := b.ImageResume();
      r := b.ImageReset(0);
    }
  }
}
