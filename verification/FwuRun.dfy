/**
 Runs of the firmware-update service: what one call does to the whole state, and what follows for the images from the
 calls that were made since the reset of the board.
 */
module FwuRun {
  import opened Fwu

  /** Only one image changed. */
  ghost predicate OneImage(v: View, v': View, id: Id) {
    id in v.descs && id in v'.descs && v'.descs == v.descs[id := v'.descs[id]]
  }

  /** bl1_fwu_image_copy */
  ghost predicate CopyStep(attrs: Attrs, v: View, v': View, id: Id, src: nat, block: nat, size: nat,
                           mapped: bool, preLoad: bool, r: Status)
  {
    var admitted := CopyAdmitted(attrs, v, id, src, block, size, mapped);
    && v'.world == v.world && v'.secExec == v.secExec
    && (if admitted then Added(v.table, v'.table, id) else v'.table == v.table)
    && (r.Success? <==> admitted && (id in v.descs && v.descs[id].state.Reset? ==> preLoad))
    && !r.EAuth? && (r.ENoMem? <==> CopyLacks(attrs, v, id, src, block, size, mapped))
    && if r.Success? then OneImage(v, v', id) && BlockCopied(attrs, v, v', id, src, block, size)
       else
         && v'.mem == v.mem && v'.via == v.via && v'.authed == v.authed && v'.blocks == v.blocks
         && (v'.descs == v.descs || (id in attrs && OneImage(v, v', id) && Resized(v.descs[id], v'.descs[id])))
  }

  /** The state in which the running world may have an image authenticated. */
  function AuthState(a: Attr, world: World): State {
    if world.Normal? && a.secure then Copied else Reset
  }

  /** An image that is authenticated where it is passes the checks of its place and gets a slot. */
  ghost predicate Placed(v: View, id: Id, src: nat, size: nat, mapped: bool) {
    src != 0 && 0 < size && src + size <= U64 && mapped && HasSlot(v.table, id)
  }

  /** bl1_fwu_image_auth */
  ghost predicate AuthStep(attrs: Attrs, v: View, v': View, id: Id, src: nat, size: nat, mapped: bool, genuine: bool, r: Status) {
    if id !in attrs || id !in v.descs || v.descs[id].state != AuthState(attrs[id], v.world) then r.EPerm? && v' == v
    else
      var d := v.descs[id];
      var total := if d.state.Copied? then d.size else size;
      if d.state.Reset? && !Placed(v, id, src, size, mapped) then r.ENoMem? && v' == v
      else if genuine then
        && r.Success?
        && v' == v.(descs := v.descs[id := Desc(Authenticated, total, d.copied)], authed := v.authed + {id}, table := v'.table)
        && (if d.state.Reset? then Added(v.table, v'.table, id) else v'.table == v.table) && Image(id) in v'.table
      else
        && r.EAuth?
        && v' == v.(descs := v.descs[id := Desc(Reset, total, d.copied)], via := v.via - {id}, authed := v.authed - {id},
                    mem := if d.state.Copied? then Write(v.mem, attrs[id].base, Zeros(d.size)) else v.mem, table := v'.table)
        && Unlisted(v.table, v'.table, id) && Image(id) !in v'.table
  }

  /** bl1_fwu_image_execute */
  ghost predicate ExecuteStep(attrs: Attrs, v: View, v': View, id: Id, r: Status) {
    if && id in attrs && id in v.descs && v.world.Normal? && attrs[id].secure && attrs[id].executable
       && v.descs[id].state.Authenticated?
    then
      && r.Success?
      && v' == v.(descs := v.descs[id := v.descs[id].(state := Executed)], world := Secure, secExec := Image(id))
    else r.EPerm? && v' == v
  }

  /** bl1_fwu_image_resume */
  ghost predicate ResumeStep(v: View, v': View, r: Status) {
    if v.secExec.Invalid? || v.secExec.id !in v.descs then r.EPerm? && v' == v
    else
      var id := v.secExec.id;
      if v.world.Secure? then
        r.Success? && v' == v.(descs := v.descs[id := v.descs[id].(state := Interrupted)], world := Normal)
      else if v.descs[id].state.Interrupted? then
        r.Success? && v' == v.(descs := v.descs[id := v.descs[id].(state := Executed)], world := Secure)
      else v' == v
  }

  /** bl1_fwu_sec_image_done */
  ghost predicate DoneStep(v: View, v': View, r: Status) {
    if v.world.Normal? || v.secExec.Invalid? || v.secExec.id !in v.descs then r.EPerm? && v' == v
    else
      var id := v.secExec.id;
      && r.Success? && Removed(v.table, v'.table, id)
      && v' == v.(descs := v.descs[id := v.descs[id].(state := Reset)], via := v.via - {id}, authed := v.authed - {id},
                  world := Normal, secExec := Invalid, table := v'.table)
  }

  /** bl1_fwu_image_reset */
  ghost predicate ResetStep(attrs: Attrs, v: View, v': View, id: Id, r: Status) {
    if id !in attrs || id !in v.descs || v.world.Secure? then r.EPerm? && v' == v
    else if v.descs[id].state.Reset? then r.Success? && v' == v
    else if v.descs[id].state.Executed? then v' == v
    else if Image(id) !in v.table then r.EPerm? && v' == v
    else
      && r.Success? && Removed(v.table, v'.table, id)
      && v' == AfterReset(attrs, v, id, Desc(Reset, 0, 0), v.descs[id].copied, v'.table)
  }

  /** One call, with what it answers, or one write. */
  ghost predicate Step(attrs: Attrs, v: View, c: Call, r: Status, v': View) {
    match c
    case Copy(id, src, block, size, mapped, preLoad) =>
      CopyStep(attrs, v, v', id, src % U64, block % U32, size % U32, mapped, preLoad, r)
    case Auth(id, src, size, mapped, genuine, postLoad) => AuthStep(attrs, v, v', id, src % U64, size % U32, mapped, genuine, r)
    case Execute(id) => ExecuteStep(attrs, v, v', id, r)
    case Resume => ResumeStep(v, v', r)
    case Done => DoneStep(v, v', r)
    case ResetImage(id) => ResetStep(attrs, v, v', id, r)
    case Store(at, bytes) =>
      v' == v.(mem := Write(v.mem, at, bytes), blocks := v.blocks - Met(attrs, v.descs, at, |bytes|))
  }

  /** The states before and after each call of a run. */
  ghost predicate IsRun(attrs: Attrs, ss: seq<View>, calls: seq<Call>, rs: seq<Status>) {
    && |ss| == |calls| + 1 && |rs| == |calls|
    && forall k :: 0 <= k < |calls| ==> Step(attrs, ss[k], calls[k], rs[k], ss[k + 1])
  }

  // ---------------------------------------------------------------------------------------------
  // The methods take these steps
  // ---------------------------------------------------------------------------------------------

  method PerformCopy(b: Bl1, id: Id, src: nat, block: nat, size: nat, mapped: bool, preLoad: bool) returns (r: Status)
    requires b.Valid() && !b.halted && src < U64 && block < U32 && size < U32
    modifies b, b.slots
    ensures b.Valid() && CopyStep(b.attrs, old(b.Now()), b.Now(), id, src, block, size, mapped, preLoad, r)
  {
    AdmittedIsImage(b.attrs, b.Now(), id, src, block, size, mapped);
    hide Inv, CopyAdmitted, CopyLacks, Added, Resized, Recorded, Write, Read;
    b.KeysAgree();
    r := b.ImageCopy(id, src, block, size, mapped, preLoad);
    b.KeysAgree();
    assert b.descs.Keys == old(b.descs).Keys;
    if id in b.attrs {
      assert b.descs == old(b.descs)[id := b.descs[id]];
    } else {
      assert b.descs == old(b.descs);
    }
  }

  lemma AdmittedIsImage(attrs: Attrs, v: View, id: Id, src: nat, block: nat, size: nat, mapped: bool)
    ensures CopyAdmitted(attrs, v, id, src, block, size, mapped) ==> id in attrs && id in v.descs
  {
  }

  method PerformAuth(b: Bl1, id: Id, src: nat, size: nat, mapped: bool, genuine: bool, postLoad: bool) returns (r: Status)
    requires b.Valid() && !b.halted && src < U64 && size < U32
    modifies b, b.slots
    ensures b.Valid() && AuthStep(b.attrs, old(b.Now()), b.Now(), id, src, size, mapped, genuine, r)
  {
    hide Inv, Added, Unlisted, HasSlot, Write, Zeros;
    b.KeysAgree();
    r := b.ImageAuth(id, src, size, mapped, genuine, postLoad);
    b.KeysAgree();
    if id in b.attrs {
      assert b.descs == old(b.descs)[id := b.descs[id]];
    }
  }

  method PerformReset(b: Bl1, id: Id) returns (r: Status)
    requires b.Valid() && !b.halted
    modifies b, b.slots
    ensures b.Valid() && ResetStep(b.attrs, old(b.Now()), b.Now(), id, r)
  {
    hide Inv, Removed, Write, Zeros, Unspoilt;
    b.KeysAgree();
    r := b.ImageReset(id);
  }

  method PerformDone(b: Bl1) returns (r: Status)
    requires b.Valid() && !b.halted
    modifies b, b.slots
    ensures b.Valid() && DoneStep(old(b.Now()), b.Now(), r)
  {
    hide Inv, Removed;
    b.KeysAgree();
    InvRecorded(b.attrs, b.Now());
    r := b.SecImageDone();
  }

  method PerformSwitch(b: Bl1, c: Call) returns (r: Status)
    requires b.Valid() && !b.halted && (c.Execute? || c.Resume?)
    modifies b, b.slots
    ensures b.Valid() && Step(b.attrs, old(b.Now()), c, r, b.Now())
  {
    hide Inv;
    b.KeysAgree();
    InvRecorded(b.attrs, b.Now());
    if c.Execute? {
      r := b.ImageExecute(c.id);
    } else {
      r := b.ImageResume();
    }
  }

  method Perform(b: Bl1, c: Call) returns (r: Status)
    requires b.Valid() && !b.halted
    modifies b, b.slots
    ensures b.Valid() && Step(b.attrs, old(b.Now()), c, r, b.Now())
  {
    hide Inv, CopyStep, AuthStep, ExecuteStep, ResumeStep, DoneStep, ResetStep;
    match c {
      case Copy(id, src, block, size, mapped, preLoad) =>
        r := PerformCopy(b, id, src % U64, block % U32, size % U32, mapped, preLoad);
      case Auth(id, src, size, mapped, genuine, postLoad) =>
        r := PerformAuth(b, id, src % U64, size % U32, mapped, genuine, postLoad);
      case Execute(_) => r := PerformSwitch(b, c);
      case Resume => r := PerformSwitch(b, c);
      case Done => r := PerformDone(b);
      case ResetImage(id) => r := PerformReset(b, id);
      case Store(at, bytes) =>
        b.Store(at, bytes);
        r := Success;
    }
  }

  /** The calls of a run, whoever makes them, until one halts it; ss are the states in between. */
  method Run(b: Bl1, calls: seq<Call>) returns (rs: seq<Status>, ghost ss: seq<View>)
    requires b.Valid() && !b.halted
    modifies b, b.slots
    ensures b.Valid() && |rs| <= |calls| && (|rs| < |calls| ==> b.halted)
    ensures IsRun(b.attrs, ss, calls[..|rs|], rs) && ss[0] == old(b.Now()) && ss[|rs|] == b.Now()
  {
    hide Inv, Step;
    rs, ss := [], [b.Now()];
    for i := 0 to |calls|
      invariant b.Valid() && |rs| == i && IsRun(b.attrs, ss, calls[..i], rs) && ss[0] == old(b.Now()) && ss[i] == b.Now()
    {
      if b.halted {
        return;
      }
      var r := Perform(b, calls[i]);
      rs, ss := rs + [r], ss + [b.Now()];
      assert calls[..i + 1] == calls[..i] + [calls[i]];
    }
    assert calls[..|calls|] == calls;
  }

  /** A run from the reset of the board on. */
  method RunFromReset(attrs: Attrs, descs: Descs, slots: array<Ref>, mem: Memory, calls: seq<Call>)
    returns (b: Bl1, rs: seq<Status>, ghost ss: seq<View>)
    requires AtReset(attrs, descs, slots[..])
    modifies slots
    ensures fresh(b) && b.attrs == attrs && |rs| <= |calls| && (|rs| < |calls| ==> b.halted)
    ensures IsRunFromReset(attrs, ss, calls[..|rs|], rs) && ss[0] == Start(descs, old(slots[..]), mem) && ss[|rs|] == b.Now()
    ensures (forall id :: id in attrs ==> Safe(attrs, b.Now(), id)) && ShareNothing(attrs, b.Now())
  {
    hide Step, Safe, ShareNothing, Inv;
    b := new Bl1(attrs, descs, slots, mem);
    rs, ss := Run(b, calls);
    AllSafe(attrs, b.Now());
  }

  // ---------------------------------------------------------------------------------------------
  // Every step keeps the invariant
  // ---------------------------------------------------------------------------------------------

  lemma StartInv(attrs: Attrs, descs: Descs, table: seq<Ref>, mem: Memory)
    requires AtReset(attrs, descs, table)
    ensures Inv(attrs, Start(descs, table, mem))
  {
  }

  lemma SameDescs(descs: Descs, id: Id)
    requires id in descs
    ensures descs[id := descs[id]] == descs
  {
  }

  /** The range of an image whose copy is admitted meets no other one. */
  lemma AdmittedIsLoadable(attrs: Attrs, v: View, id: Id, d: Desc)
    requires Inv(attrs, v) && id in attrs && attrs[id].secure && attrs.Keys == v.descs.Keys
    requires d.copied < d.size <= attrs[id].max
    requires if v.descs[id].state.Reset?
             then d == Desc(Reset, d.size, 0) && AllClear(attrs, Sized(v.descs, id, d.size), v.table, id)
             else d == v.descs[id] && d.state.Copying?
    ensures Loadable(attrs, v.descs[id := d], v.table, id)
  {
    InvParts(attrs, v);
    hide Inv, Disjoint, Sane, Apart, WorldOk, MemOk;
    var descs := Sized(v.descs, id, d.size);
    if v.descs[id].state.Reset? {
      forall r | r in v.table && r.Image? ensures r.id in attrs && Clear(attrs, v.descs[id := d], r, id) {
        var k :| 0 <= k < |v.table| && v.table[k] == r;
        assert Clear(attrs, descs, v.table[k], id);
      }
    }
  }

  /** What an admitted copy starts from, and how much it copies. */
  function Begun(d: Desc, size: nat): Desc {
    if d.state.Reset? then Desc(Reset, size, 0) else d
  }

  function Clip(d: Desc, block: nat): nat {
    if d.copied + block > d.size then (if d.copied > d.size then 0 else d.size - d.copied) else block
  }

  lemma CopiedIsAfterCopy(attrs: Attrs, v: View, v': View, id: Id, src: nat, block: nat, size: nat)
    requires OneImage(v, v', id) && BlockCopied(attrs, v, v', id, src, block, size)
    requires v'.world == v.world && v'.secExec == v.secExec
    ensures var d := Begun(v.descs[id], size);
      && attrs[id].secure && d.copied < d.size <= attrs[id].max && 0 < Clip(d, block) <= d.size - d.copied
      && v' == AfterCopy(attrs, v.(descs := v.descs[id := d], table := v'.table), id, Read(v.mem, src, Clip(d, block)))
  {
    hide Write;
  }

  lemma CopiedKeeps(attrs: Attrs, v: View, v': View, id: Id, src: nat, block: nat, size: nat, mapped: bool)
    requires Inv(attrs, v) && size < U32 && CopyAdmitted(attrs, v, id, src, block, size, mapped)
    requires OneImage(v, v', id) && BlockCopied(attrs, v, v', id, src, block, size) && Added(v.table, v'.table, id)
    requires v'.world == v.world && v'.secExec == v.secExec
    ensures Inv(attrs, v')
  {
    InvParts(attrs, v);
    var d := Begun(v.descs[id], size);
    var v1 := v.(descs := v.descs[id := d]);
    CopiedIsAfterCopy(attrs, v, v', id, src, block, size);
    AdmittedIsLoadable(attrs, v, id, d);
    SameDescs(v.descs, id);
    hide Inv, Added, AllClear, HasSlot, Write, Loadable, BlockCopied, Advanced, Recorded, AfterCopy;
    if v.descs[id].state.Reset? { ResizeKeeps(attrs, v, id, d); }
    AddKeeps(attrs, v1, v'.table, id);
    LoadableAfterAdd(attrs, v1.descs, v.table, v'.table, id);
    CopyKeeps(attrs, v1.(table := v'.table), id, Read(v.mem, src, Clip(d, block)));
  }

  lemma CopyStepKeeps(attrs: Attrs, v: View, v': View, id: Id, src: nat, block: nat, size: nat,
                      mapped: bool, preLoad: bool, r: Status)
    requires Inv(attrs, v) && size < U32 && CopyStep(attrs, v, v', id, src, block, size, mapped, preLoad, r)
    ensures Inv(attrs, v')
  {
    AdmittedIsImage(attrs, v, id, src, block, size, mapped);
    InvParts(attrs, v);
    hide Inv, Added, CopyAdmitted, BlockCopied;
    if r.Success? {
      CopiedKeeps(attrs, v, v', id, src, block, size, mapped);
    } else {
      var v1 := v.(descs := v'.descs);
      if v'.descs != v.descs {
        ResizeKeeps(attrs, v, id, v'.descs[id]);
      }
      if CopyAdmitted(attrs, v, id, src, block, size, mapped) {
        AddKeeps(attrs, v1, v'.table, id);
        assert v' == v1.(table := v'.table);
      } else {
        assert v' == v1;
      }
    }
  }

  /** An image that is not loaded was authenticated in vain. */
  lemma ForgetKeeps(attrs: Attrs, v: View, id: Id, d: Desc)
    requires Inv(attrs, v) && id in attrs && id in v.descs && v.descs[id].state.Reset? && d.state.Reset?
    requires d.size < U32 && (d.copied == 0 || d.copied == v.descs[id].copied)
    ensures Inv(attrs, v.(descs := v.descs[id := d], via := v.via - {id}, authed := v.authed - {id}))
  {
    InvParts(attrs, v);
    ResizeKeeps(attrs, v, id, d);
    InvImage(attrs, v, id);
    var v1 := v.(descs := v.descs[id := d]);
    var v2 := v1.(via := v.via - {id}, authed := v.authed - {id});
    assert v2.via == v.via;
    InvImage(attrs, v1, id);
    InvParts(attrs, v1);
    hide Inv, Apart, TableOk, WorldOk, MemOk;
    SameDescs(v1.descs, id);
    Changed(attrs, v1, v2, id, d);
  }

  lemma AuthStepKeeps(attrs: Attrs, v: View, v': View, id: Id, src: nat, size: nat, mapped: bool, genuine: bool, r: Status)
    requires Inv(attrs, v) && size < U32 && AuthStep(attrs, v, v', id, src, size, mapped, genuine, r)
    ensures Inv(attrs, v')
  {
    if v' != v {
      var d := v.descs[id];
      var total := if d.state.Copied? then d.size else size;
      InvParts(attrs, v);
      InvImage(attrs, v, id);
      hide Inv, Added, Unlisted, Placed, Write, Zeros, Removed;
      if genuine {
        GenuineKeeps(attrs, v, v', id, total);
      } else if Image(id) in v.table {
        UnlistedParts(v.table, v'.table, id);
        var n := if d.state.Copied? then d.size else 0;
        ResetKeeps(attrs, v, id, Desc(Reset, total, d.copied), n, v'.table);
        assert v' == AfterReset(attrs, v, id, Desc(Reset, total, d.copied), n, v'.table);
      } else {
        UnlistedParts(v.table, v'.table, id);
        ForgetKeeps(attrs, v, id, Desc(Reset, total, d.copied));
      }
    }
  }

  lemma UnlistedParts(s: seq<Ref>, s': seq<Ref>, id: Id)
    requires Unlisted(s, s', id)
    ensures if Image(id) in s then Removed(s, s', id) else s' == s
  {
  }

  lemma GenuineKeeps(attrs: Attrs, v: View, v': View, id: Id, total: nat)
    requires Inv(attrs, v) && id in attrs && id in v.descs && total < U32 && Image(id) in v'.table
    requires var d := v.descs[id];
      && (d.state.Reset? || (d.state.Copied? && total == d.size))
      && v' == v.(descs := v.descs[id := Desc(Authenticated, total, d.copied)], authed := v.authed + {id}, table := v'.table)
      && (if d.state.Reset? then Added(v.table, v'.table, id) else v'.table == v.table)
    ensures Inv(attrs, v')
  {
    var d := v.descs[id];
    InvParts(attrs, v);
    InvImage(attrs, v, id);
    hide Inv, Added, Apart, TableOk, WorldOk, MemOk;
    var d1 := if d.state.Reset? then d.(size := total) else d;
    var v1 := v.(descs := v.descs[id := d1]);
    var v2 := v1.(table := v'.table);
    SameDescs(v.descs, id);
    if d.state.Reset? {
      ResizeKeeps(attrs, v, id, d1);
      AddKeeps(attrs, v1, v'.table, id);
    }
    AuthKeeps(attrs, v2, id, Desc(Authenticated, total, d.copied));
    assert v' == v2.(descs := v2.descs[id := Desc(Authenticated, total, d.copied)], authed := v2.authed + {id});
  }

  lemma SwitchStepKeeps(attrs: Attrs, v: View, c: Call, r: Status, v': View)
    requires Inv(attrs, v) && (c.Execute? || c.Resume?) && Step(attrs, v, c, r, v')
    ensures Inv(attrs, v')
  {
    if v' != v {
      InvParts(attrs, v);
      InvRecorded(attrs, v);
      var id := if c.Execute? then c.id else v.secExec.id;
      InvImage(attrs, v, id);
      hide Inv;
      SwitchKeeps(attrs, v, id, v'.descs[id], Image(id), v'.world);
      assert v' == v.(descs := v.descs[id := v'.descs[id]], secExec := Image(id), world := v'.world);
    }
  }

  lemma DoneStepKeeps(attrs: Attrs, v: View, v': View, r: Status)
    requires Inv(attrs, v) && DoneStep(v, v', r)
    ensures Inv(attrs, v')
  {
    if v' != v {
      InvParts(attrs, v);
      InvRecorded(attrs, v);
      hide Inv, Removed;
      var id := v.secExec.id;
      DoneKeeps(attrs, v, id, v'.table);
      assert v' == AfterReset(attrs, v, id, v.descs[id].(state := Reset), 0, v'.table).(secExec := Invalid, world := Normal);
    }
  }

  lemma ResetStepKeeps(attrs: Attrs, v: View, v': View, id: Id, r: Status)
    requires Inv(attrs, v) && ResetStep(attrs, v, v', id, r)
    ensures Inv(attrs, v')
  {
    if v' != v {
      InvParts(attrs, v);
      InvImage(attrs, v, id);
      hide Inv, Removed, AfterReset;
      ResetKeeps(attrs, v, id, Desc(Reset, 0, 0), v.descs[id].copied, v'.table);
    }
  }

  lemma StepKeeps(attrs: Attrs, v: View, c: Call, r: Status, v': View)
    requires Inv(attrs, v) && Step(attrs, v, c, r, v')
    ensures Inv(attrs, v')
  {
    hide Inv, CopyStep, AuthStep, ExecuteStep, ResumeStep, DoneStep, ResetStep, Write, Met;
    match c
    case Copy(id, src, block, size, mapped, preLoad) =>
      CopyStepKeeps(attrs, v, v', id, src % U64, block % U32, size % U32, mapped, preLoad, r);
    case Auth(id, src, size, mapped, genuine, postLoad) =>
      AuthStepKeeps(attrs, v, v', id, src % U64, size % U32, mapped, genuine, r);
    case Execute(_) => SwitchStepKeeps(attrs, v, c, r, v');
    case Resume => SwitchStepKeeps(attrs, v, c, r, v');
    case Done => DoneStepKeeps(attrs, v, v', r);
    case ResetImage(id) => ResetStepKeeps(attrs, v, v', id, r);
    case Store(at, bytes) => StoreKeeps(attrs, v, at, bytes);
  }

  // ---------------------------------------------------------------------------------------------
  // What the calls since the reset say of an image
  // ---------------------------------------------------------------------------------------------

  ghost predicate IsRunFromReset(attrs: Attrs, ss: seq<View>, calls: seq<Call>, rs: seq<Status>) {
    && IsRun(attrs, ss, calls, rs)
    && AtReset(attrs, ss[0].descs, ss[0].table) && ss[0] == Start(ss[0].descs, ss[0].table, ss[0].mem)
  }

  lemma {:induction false} RunInv(attrs: Attrs, ss: seq<View>, calls: seq<Call>, rs: seq<Status>, n: nat)
    requires IsRunFromReset(attrs, ss, calls, rs) && n <= |calls|
    ensures Inv(attrs, ss[n]) && attrs.Keys == ss[n].descs.Keys
  {
    hide Inv, Step, AtReset;
    if n == 0 {
      StartInv(attrs, ss[0].descs, ss[0].table, ss[0].mem);
    } else {
      RunInv(attrs, ss, calls, rs, n - 1);
      StepKeeps(attrs, ss[n - 1], calls[n - 1], rs[n - 1], ss[n]);
    }
    InvParts(attrs, ss[n]);
  }

  predicate Copies(c: Call, r: Status, i: Id) {
    c.Copy? && c.id == i && r.Success?
  }

  predicate Authenticates(c: Call, r: Status, i: Id) {
    c.Auth? && c.id == i && r.Success?
  }

  predicate Loaded(v: View, i: Id) {
    i in v.descs && !v.descs[i].state.Reset?
  }

  /** Image i is not in the reset state after any of the calls from the k-th on, up to the n-th state. */
  ghost predicate LoadedSince(ss: seq<View>, i: Id, k: nat, n: nat)
    requires n < |ss|
  {
    forall l :: k < l <= n ==> Loaded(ss[l], i)
  }

  ghost predicate CopiedSince(ss: seq<View>, calls: seq<Call>, rs: seq<Status>, i: Id, n: nat)
    requires n < |ss| == |calls| + 1 == |rs| + 1
  {
    exists k :: 0 <= k < n && Copies(calls[k], rs[k], i) && LoadedSince(ss, i, k, n)
  }

  ghost predicate AuthenticatedSince(ss: seq<View>, calls: seq<Call>, rs: seq<Status>, i: Id, n: nat)
    requires n < |ss| == |calls| + 1 == |rs| + 1
  {
    exists k :: 0 <= k < n && Authenticates(calls[k], rs[k], i) && LoadedSince(ss, i, k, n)
  }

  lemma SinceMore(ss: seq<View>, i: Id, k: nat, n: nat)
    requires 0 < n < |ss| && k < n
    ensures LoadedSince(ss, i, k, n) <==> LoadedSince(ss, i, k, n - 1) && Loaded(ss[n], i)
  {
  }

  /** How one call changes whether an image counts as copied and as authenticated. */
  ghost predicate Traced(v: View, c: Call, r: Status, v': View, i: Id) {
    && (if Copies(c, r, i) then i in v'.via else i in v'.via <==> i in v.via && Loaded(v', i))
    && (if Authenticates(c, r, i) then i in v'.authed && Loaded(v', i) else i in v'.authed ==> i in v.authed)
    && (Loaded(v, i) ==> if Loaded(v', i) then i in v.authed ==> i in v'.authed else i !in v'.authed)
    && (i in v'.via ==> Loaded(v', i))
  }

  lemma CopyTraced(attrs: Attrs, v: View, c: Call, r: Status, v': View, i: Id)
    requires c.Copy? && Step(attrs, v, c, r, v') && i in attrs && i in v.descs && i in v'.descs
    requires (i in v.via ==> Loaded(v, i)) && (i in v'.via ==> Loaded(v', i))
    ensures Traced(v, c, r, v', i)
  {
    hide Added, Write, Read, Recorded, CopyAdmitted;
  }

  lemma AuthTraced(attrs: Attrs, v: View, c: Call, r: Status, v': View, i: Id)
    requires c.Auth? && Step(attrs, v, c, r, v') && i in attrs && i in v.descs && i in v'.descs
    requires (i in v.via ==> Loaded(v, i)) && (i in v'.via ==> Loaded(v', i))
    ensures Traced(v, c, r, v', i)
  {
    hide Added, Unlisted, Write, Zeros, Placed;
  }

  lemma OtherTraced(attrs: Attrs, v: View, c: Call, r: Status, v': View, i: Id)
    requires !c.Copy? && !c.Auth? && Step(attrs, v, c, r, v') && i in attrs && i in v.descs && i in v'.descs
    requires (i in v.via ==> Loaded(v, i)) && (i in v'.via ==> Loaded(v', i))
    requires v.world.Secure? && v.secExec.Image? && v.secExec.id == i ==> v.descs[i].state.Executed?
    ensures Traced(v, c, r, v', i)
  {
    hide Removed, Write, Zeros, Met, Unspoilt;
  }

  lemma StepTraced(attrs: Attrs, v: View, c: Call, r: Status, v': View, i: Id)
    requires Inv(attrs, v) && Inv(attrs, v') && Step(attrs, v, c, r, v') && i in attrs
    ensures Traced(v, c, r, v', i)
  {
    InvParts(attrs, v);
    InvParts(attrs, v');
    InvImage(attrs, v, i);
    InvImage(attrs, v', i);
    InvRecorded(attrs, v);
    hide Inv, Step, Traced;
    if c.Copy? {
      CopyTraced(attrs, v, c, r, v', i);
    } else if c.Auth? {
      AuthTraced(attrs, v, c, r, v', i);
    } else {
      OtherTraced(attrs, v, c, r, v', i);
    }
  }

  lemma RunStep(attrs: Attrs, ss: seq<View>, calls: seq<Call>, rs: seq<Status>, n: nat)
    requires IsRunFromReset(attrs, ss, calls, rs) && 0 < n <= |calls|
    ensures |ss| == |calls| + 1 == |rs| + 1 && Step(attrs, ss[n - 1], calls[n - 1], rs[n - 1], ss[n])
  {
  }

  lemma RunTraced(attrs: Attrs, ss: seq<View>, calls: seq<Call>, rs: seq<Status>, i: Id, n: nat)
    requires IsRunFromReset(attrs, ss, calls, rs) && 0 < n <= |calls| && i in attrs
    ensures |ss| == |calls| + 1 == |rs| + 1 && Traced(ss[n - 1], calls[n - 1], rs[n - 1], ss[n], i)
  {
    hide Inv, Step, Traced, IsRunFromReset;
    RunInv(attrs, ss, calls, rs, n - 1);
    RunInv(attrs, ss, calls, rs, n);
    RunStep(attrs, ss, calls, rs, n);
    StepTraced(attrs, ss[n - 1], calls[n - 1], rs[n - 1], ss[n], i);
  }

  /** The images that are recorded as copied are those that were copied and not reset since. */
  lemma {:induction false} ViaMeans(attrs: Attrs, ss: seq<View>, calls: seq<Call>, rs: seq<Status>, i: Id, n: nat)
    requires IsRunFromReset(attrs, ss, calls, rs) && n <= |calls| && i in attrs
    ensures i in ss[n].via <==> CopiedSince(ss, calls, rs, i, n)
  {
    if n > 0 {
      hide IsRunFromReset, Inv, LoadedSince;
      ViaMeans(attrs, ss, calls, rs, i, n - 1);
      RunTraced(attrs, ss, calls, rs, i, n);
      if Copies(calls[n - 1], rs[n - 1], i) {
        JustNow(ss, i, n);
      } else {
        forall k | 0 <= k < n - 1 ensures LoadedSince(ss, i, k, n) <==> LoadedSince(ss, i, k, n - 1) && Loaded(ss[n], i) {
          SinceMore(ss, i, k, n);
        }
      }
    }
  }

  lemma JustNow(ss: seq<View>, i: Id, n: nat)
    requires 0 < n < |ss|
    ensures LoadedSince(ss, i, n - 1, n) <==> Loaded(ss[n], i)
  {
  }

  /** Likewise for those that were authenticated. */
  lemma {:induction false} AuthedMeans(attrs: Attrs, ss: seq<View>, calls: seq<Call>, rs: seq<Status>, i: Id, n: nat)
    requires IsRunFromReset(attrs, ss, calls, rs) && n <= |calls| && i in attrs
    ensures i in ss[n].authed <==> AuthenticatedSince(ss, calls, rs, i, n)
    ensures i in ss[n].authed ==> Loaded(ss[n], i)
  {
    if n > 0 {
      hide IsRunFromReset, Inv, LoadedSince;
      AuthedMeans(attrs, ss, calls, rs, i, n - 1);
      RunTraced(attrs, ss, calls, rs, i, n);
      forall k | 0 <= k < n - 1 ensures LoadedSince(ss, i, k, n) <==> LoadedSince(ss, i, k, n - 1) && Loaded(ss[n], i) {
        SinceMore(ss, i, k, n);
      }
      JustNow(ss, i, n);
      if Authenticates(calls[n - 1], rs[n - 1], i) {
        assert LoadedSince(ss, i, n - 1, n);
      }
    }
  }

  // ---------------------------------------------------------------------------------------------
  // What is in memory
  // ---------------------------------------------------------------------------------------------

  /** The block that a copy reads: as much of it as the image misses. */
  ghost function ClippedBlock(v: View, c: Call): seq<Byte>
    requires c.Copy? && c.id in v.descs
  {
    Read(v.mem, c.src % U64, Clip(Begun(v.descs[c.id], c.size % U32), c.block % U32))
  }

  /** The clipped blocks that were copied since the first copy after the last reset, one behind the other. */
  ghost function CopiedBytes(ss: seq<View>, calls: seq<Call>, rs: seq<Status>, i: Id, n: nat): seq<Byte>
    requires n < |ss| == |calls| + 1 == |rs| + 1
  {
    if n == 0 then []
    else
      var was, v, c := CopiedBytes(ss, calls, rs, i, n - 1), ss[n - 1], calls[n - 1];
      if Copies(c, rs[n - 1], i) && i in v.descs then
        (if v.descs[i].state.Reset? then [] else was) + ClippedBlock(v, c)
      else was
  }

  /** The call writes over bytes of the image i that waits; recent are those copied since their last reset. */
  ghost predicate Overwrites(attrs: Attrs, v: View, c: Call, i: Id, recent: set<Id>) {
    match c
    case Store(at, bytes) => i in Met(attrs, v.descs, at, |bytes|)
    case ResetImage(j) =>
      && j in attrs && Loaded(v, j) && j !in recent && v.descs[j].copied != 0
      && i in Met(attrs, v.descs, attrs[j].base, v.descs[j].copied)
    case _ => false
  }

  /** How one call changes the record of a waiting image. */
  ghost predicate RecordTraced(attrs: Attrs, v: View, c: Call, r: Status, v': View, i: Id)
    requires i in v.descs && i in v'.descs
  {
    i in v'.via && Waiting(v'.descs[i].state) ==>
      if Copies(c, r, i) then
        && (v.descs[i].state.Reset? || (v.descs[i].state.Copying? && i in v.via))
        && v'.blocks == Recorded(v.descs, v.blocks, i, ClippedBlock(v, c))
      else
        && i in v.via && Waiting(v.descs[i].state)
        && (i in v.blocks && !Overwrites(attrs, v, c, i, v.via) ==> i in v'.blocks && v'.blocks[i] == v.blocks[i])
  }

  lemma CopyRecordTraced(attrs: Attrs, v: View, c: Call, r: Status, v': View, i: Id)
    requires c.Copy? && Step(attrs, v, c, r, v') && i in attrs && i in v.descs && i in v'.descs
    requires v.descs[i].state.Copying? ==> i in v.via
    ensures RecordTraced(attrs, v, c, r, v', i)
  {
    hide Added, Write, Read, CopyAdmitted;
  }

  lemma AuthRecordTraced(attrs: Attrs, v: View, c: Call, r: Status, v': View, i: Id)
    requires c.Auth? && Step(attrs, v, c, r, v') && i in attrs && i in v.descs && i in v'.descs
    requires i in v.via ==> Loaded(v, i)
    ensures RecordTraced(attrs, v, c, r, v', i)
  {
    hide Added, Unlisted, Write, Zeros, Placed;
  }

  lemma OtherRecordTraced(attrs: Attrs, v: View, c: Call, r: Status, v': View, i: Id)
    requires !c.Copy? && !c.Auth? && Step(attrs, v, c, r, v') && i in attrs && i in v.descs && i in v'.descs
    ensures RecordTraced(attrs, v, c, r, v', i)
  {
    hide Removed, Write, Zeros, Met;
  }

  lemma RunRecordTraced(attrs: Attrs, ss: seq<View>, calls: seq<Call>, rs: seq<Status>, i: Id, n: nat)
    requires IsRunFromReset(attrs, ss, calls, rs) && 0 < n <= |calls| && i in attrs
    ensures |ss| == |calls| + 1 == |rs| + 1 && i in ss[n - 1].descs && i in ss[n].descs
    ensures RecordTraced(attrs, ss[n - 1], calls[n - 1], rs[n - 1], ss[n], i)
    ensures i in ss[n].via ==> Loaded(ss[n], i)
  {
    hide Inv, Step, RecordTraced, IsRunFromReset;
    RunInv(attrs, ss, calls, rs, n - 1);
    RunInv(attrs, ss, calls, rs, n);
    RunStep(attrs, ss, calls, rs, n);
    InvImage(attrs, ss[n - 1], i);
    InvImage(attrs, ss[n], i);
    if calls[n - 1].Copy? {
      CopyRecordTraced(attrs, ss[n - 1], calls[n - 1], rs[n - 1], ss[n], i);
    } else if calls[n - 1].Auth? {
      AuthRecordTraced(attrs, ss[n - 1], calls[n - 1], rs[n - 1], ss[n], i);
    } else {
      OtherRecordTraced(attrs, ss[n - 1], calls[n - 1], rs[n - 1], ss[n], i);
    }
  }

  /** Since its last reset nobody wrote over what waits of image i. */
  ghost predicate Undisturbed(attrs: Attrs, ss: seq<View>, calls: seq<Call>, i: Id, n: nat)
    requires n < |ss| == |calls| + 1
  {
    forall k :: 0 <= k < n && LoadedSince(ss, i, k, n) ==> !Overwrites(attrs, ss[k], calls[k], i, ss[k].via)
  }

  lemma UndisturbedBefore(attrs: Attrs, ss: seq<View>, calls: seq<Call>, i: Id, n: nat)
    requires 0 < n < |ss| == |calls| + 1 && Loaded(ss[n], i) && Undisturbed(attrs, ss, calls, i, n)
    ensures Undisturbed(attrs, ss, calls, i, n - 1) && !Overwrites(attrs, ss[n - 1], calls[n - 1], i, ss[n - 1].via)
  {
    hide Overwrites, LoadedSince;
    JustNow(ss, i, n);
    forall k | 0 <= k < n - 1 && LoadedSince(ss, i, k, n - 1) ensures !Overwrites(attrs, ss[k], calls[k], i, ss[k].via) {
      SinceMore(ss, i, k, n);
    }
  }

  /** If image i was copied and waits, these bytes are recorded of it. */
  ghost predicate RecordedAs(v: View, i: Id, bytes: seq<Byte>) {
    i in v.descs && (i in v.via && Waiting(v.descs[i].state) ==> i in v.blocks && v.blocks[i] == bytes)
  }

  lemma {:induction false} BlocksMean(attrs: Attrs, ss: seq<View>, calls: seq<Call>, rs: seq<Status>, i: Id, n: nat)
    requires IsRunFromReset(attrs, ss, calls, rs) && n <= |calls| && i in attrs
    requires Undisturbed(attrs, ss, calls, i, n) && Loaded(ss[n], i)
    ensures RecordedAs(ss[n], i, CopiedBytes(ss, calls, rs, i, n))
  {
    hide IsRunFromReset, Undisturbed, CopiedBytes, RecordedAs, Loaded;
    RunLengths(attrs, ss, calls, rs);
    if n == 0 {
      StartsEmpty(attrs, ss, calls, rs, i);
    } else {
      UndisturbedBefore(attrs, ss, calls, i, n);
      if Loaded(ss[n - 1], i) {
        BlocksMean(attrs, ss, calls, rs, i, n - 1);
      } else {
        NothingRecorded(attrs, ss, calls, rs, i, n - 1);
      }
      BlocksStep(attrs, ss, calls, rs, i, n);
    }
  }

  lemma RunLengths(attrs: Attrs, ss: seq<View>, calls: seq<Call>, rs: seq<Status>)
    requires IsRunFromReset(attrs, ss, calls, rs)
    ensures |ss| == |calls| + 1 == |rs| + 1
  {
  }

  lemma StartsEmpty(attrs: Attrs, ss: seq<View>, calls: seq<Call>, rs: seq<Status>, i: Id)
    requires IsRunFromReset(attrs, ss, calls, rs) && Loaded(ss[0], i)
    ensures RecordedAs(ss[0], i, CopiedBytes(ss, calls, rs, i, 0))
  {
  }

  lemma NothingRecorded(attrs: Attrs, ss: seq<View>, calls: seq<Call>, rs: seq<Status>, i: Id, n: nat)
    requires IsRunFromReset(attrs, ss, calls, rs) && n <= |calls| && i in attrs && !Loaded(ss[n], i)
    ensures RecordedAs(ss[n], i, CopiedBytes(ss, calls, rs, i, n))
  {
    RunInv(attrs, ss, calls, rs, n);
    hide IsRunFromReset, Inv, CopiedBytes;
  }

  lemma BlocksStep(attrs: Attrs, ss: seq<View>, calls: seq<Call>, rs: seq<Status>, i: Id, n: nat)
    requires IsRunFromReset(attrs, ss, calls, rs) && 0 < n <= |calls| && i in attrs && Loaded(ss[n], i)
    requires !Overwrites(attrs, ss[n - 1], calls[n - 1], i, ss[n - 1].via)
    requires RecordedAs(ss[n - 1], i, CopiedBytes(ss, calls, rs, i, n - 1))
    ensures RecordedAs(ss[n], i, CopiedBytes(ss, calls, rs, i, n))
  {
    hide IsRunFromReset, Overwrites, ClippedBlock, CopiedBytes, RecordTraced;
    RunRecordTraced(attrs, ss, calls, rs, i, n);
    if i in ss[n].via && Waiting(ss[n].descs[i].state) {
      RecordContinues(attrs, ss[n - 1], calls[n - 1], rs[n - 1], ss[n], i, CopiedBytes(ss, calls, rs, i, n - 1));
      BytesGrow(ss, calls, rs, i, n);
    }
  }

  lemma RecordContinues(attrs: Attrs, v: View, c: Call, r: Status, v': View, i: Id, was: seq<Byte>)
    requires i in v.descs && i in v'.descs && RecordTraced(attrs, v, c, r, v', i)
    requires i in v'.via && Waiting(v'.descs[i].state) && !Overwrites(attrs, v, c, i, v.via)
    requires i in v.via && Waiting(v.descs[i].state) ==> i in v.blocks && v.blocks[i] == was
    ensures i in v'.blocks
    ensures v'.blocks[i] == if Copies(c, r, i) then (if v.descs[i].state.Reset? then [] else was) + ClippedBlock(v, c) else was
  {
    hide Overwrites, ClippedBlock;
  }

  lemma BytesGrow(ss: seq<View>, calls: seq<Call>, rs: seq<Status>, i: Id, n: nat)
    requires 0 < n < |ss| == |calls| + 1 == |rs| + 1 && i in ss[n - 1].descs
    ensures var was, v, c := CopiedBytes(ss, calls, rs, i, n - 1), ss[n - 1], calls[n - 1];
      CopiedBytes(ss, calls, rs, i, n)
        == if Copies(c, rs[n - 1], i) then (if v.descs[i].state.Reset? then [] else was) + ClippedBlock(v, c) else was
  {
  }

  ghost function Recent(attrs: Attrs, ss: seq<View>, calls: seq<Call>, rs: seq<Status>, k: nat): set<Id>
    requires k < |ss| == |calls| + 1 == |rs| + 1
  {
    set j | j in attrs && CopiedSince(ss, calls, rs, j, k)
  }

  ghost predicate NeverOverwritten(attrs: Attrs, ss: seq<View>, calls: seq<Call>, rs: seq<Status>, i: Id, n: nat)
    requires n < |ss| == |calls| + 1 == |rs| + 1
  {
    forall k :: 0 <= k < n && LoadedSince(ss, i, k, n) ==>
      !Overwrites(attrs, ss[k], calls[k], i, Recent(attrs, ss, calls, rs, k))
  }

  /**
   An image that was copied since its last reset and waits is in memory as the clipped blocks it was copied in, one
   behind the other, unless a world wrote over it, or the reset of an image that was authenticated in place did.
   */
  lemma MemoryIsCopied(attrs: Attrs, ss: seq<View>, calls: seq<Call>, rs: seq<Status>, i: Id, n: nat)
    requires IsRunFromReset(attrs, ss, calls, rs) && n <= |calls| && i in attrs && CopiedSince(ss, calls, rs, i, n)
    requires i in ss[n].descs && Waiting(ss[n].descs[i].state) && NeverOverwritten(attrs, ss, calls, rs, i, n)
    ensures Read(ss[n].mem, attrs[i].base, ss[n].descs[i].copied) == CopiedBytes(ss, calls, rs, i, n)
  {
    RunInv(attrs, ss, calls, rs, n);
    ViaMeans(attrs, ss, calls, rs, i, n);
    InvImage(attrs, ss[n], i);
    forall k | 0 <= k < n && LoadedSince(ss, i, k, n) ensures !Overwrites(attrs, ss[k], calls[k], i, ss[k].via) {
      forall j | j in attrs ensures j in ss[k].via <==> CopiedSince(ss, calls, rs, j, k) {
        ViaMeans(attrs, ss, calls, rs, j, k);
      }
    }
    hide Inv, Overwrites, IsRunFromReset, CopiedSince, NeverOverwritten;
    BlocksMean(attrs, ss, calls, rs, i, n);
  }

  // ---------------------------------------------------------------------------------------------
  // What a run guarantees
  // ---------------------------------------------------------------------------------------------

  /** A secure image that was let through to execution was authenticated after its last reset. */
  lemma ExecutedIsAuthenticated(attrs: Attrs, ss: seq<View>, calls: seq<Call>, rs: seq<Status>, i: Id, n: nat)
    requires IsRunFromReset(attrs, ss, calls, rs) && n <= |calls| && i in attrs && attrs[i].secure && i in ss[n].descs
    requires ss[n].descs[i].state.Authenticated? || ss[n].descs[i].state.Executed? || ss[n].descs[i].state.Interrupted?
    ensures AuthenticatedSince(ss, calls, rs, i, n)
  {
    RunInv(attrs, ss, calls, rs, n);
    InvImage(attrs, ss[n], i);
    AuthedMeans(attrs, ss, calls, rs, i, n);
  }

  /** Two images that were copied and not reset since share no address, whatever became of them. */
  lemma CopiedShareNothing(attrs: Attrs, ss: seq<View>, calls: seq<Call>, rs: seq<Status>, i: Id, j: Id, n: nat)
    requires IsRunFromReset(attrs, ss, calls, rs) && n <= |calls| && i in attrs && j in attrs && i != j
    requires CopiedSince(ss, calls, rs, i, n) && CopiedSince(ss, calls, rs, j, n)
    ensures i in ss[n].descs && j in ss[n].descs
    ensures forall a :: InRange(a, attrs[i].base, ss[n].descs[i].size) ==> !InRange(a, attrs[j].base, ss[n].descs[j].size)
  {
    RunInv(attrs, ss, calls, rs, n);
    ViaMeans(attrs, ss, calls, rs, i, n);
    ViaMeans(attrs, ss, calls, rs, j, n);
    CopiedAreApart(attrs, ss[n], i, j);
  }

  /** Only the normal world has had images authenticated. */
  ghost predicate OnlyNormalAuth(ss: seq<View>, calls: seq<Call>, n: nat)
    requires n < |ss| == |calls| + 1
  {
    forall k :: 0 <= k < n && calls[k].Auth? ==> ss[k].world.Normal?
  }

  /** A secure image leaves the reset state only by being copied, unless the secure world has it authenticated. */
  lemma OnlyCopiesLoad(attrs: Attrs, v: View, c: Call, r: Status, v': View, i: Id)
    requires Inv(attrs, v) && Step(attrs, v, c, r, v') && i in attrs && attrs[i].secure && (c.Auth? ==> v.world.Normal?)
    requires Loaded(v', i) && !Copies(c, r, i)
    ensures Loaded(v, i)
  {
    InvParts(attrs, v);
    InvRecorded(attrs, v);
    hide Inv, Added, Removed, Unlisted, Write, Zeros, Read, Met, CopyAdmitted, Placed, BlockCopied;
    if v.secExec.Image? {
      InvImage(attrs, v, v.secExec.id);
    }
  }

  lemma {:induction false} SecureIsCopied(attrs: Attrs, ss: seq<View>, calls: seq<Call>, rs: seq<Status>, i: Id, n: nat)
    requires IsRunFromReset(attrs, ss, calls, rs) && n <= |calls| && i in attrs && attrs[i].secure
    requires OnlyNormalAuth(ss, calls, n) && Loaded(ss[n], i)
    ensures CopiedSince(ss, calls, rs, i, n)
  {
    if n > 0 {
      RunInv(attrs, ss, calls, rs, n - 1);
      assert Step(attrs, ss[n - 1], calls[n - 1], rs[n - 1], ss[n]);
      hide Inv, Step, IsRunFromReset, LoadedSince;
      if Copies(calls[n - 1], rs[n - 1], i) {
        JustNow(ss, i, n);
      } else {
        OnlyCopiesLoad(attrs, ss[n - 1], calls[n - 1], rs[n - 1], ss[n], i);
        SecureIsCopied(attrs, ss, calls, rs, i, n - 1);
        var k :| 0 <= k < n - 1 && Copies(calls[k], rs[k], i) && LoadedSince(ss, i, k, n - 1);
        SinceMore(ss, i, k, n);
      }
    }
  }

  /** No world has written over what waits of image i since its last reset. */
  ghost predicate NeverStoredOver(attrs: Attrs, ss: seq<View>, calls: seq<Call>, i: Id, n: nat)
    requires n < |ss| == |calls| + 1
  {
    forall k :: 0 <= k < n && calls[k].Store? && LoadedSince(ss, i, k, n) ==>
      i !in Met(attrs, ss[k].descs, calls[k].at, |calls[k].bytes|)
  }

  /**
   If only the normal world has images authenticated, every secure image that waits is in memory as the clipped blocks
   it was copied in since its last reset, unless a world wrote over it.
   */
  lemma SecureMemoryIsCopied(attrs: Attrs, ss: seq<View>, calls: seq<Call>, rs: seq<Status>, i: Id, n: nat)
    requires IsRunFromReset(attrs, ss, calls, rs) && n <= |calls| && i in attrs && attrs[i].secure && i in ss[n].descs
    requires OnlyNormalAuth(ss, calls, n) && Waiting(ss[n].descs[i].state) && NeverStoredOver(attrs, ss, calls, i, n)
    ensures Read(ss[n].mem, attrs[i].base, ss[n].descs[i].copied) == CopiedBytes(ss, calls, rs, i, n)
  {
    SecureIsCopied(attrs, ss, calls, rs, i, n);
    forall k | 0 <= k < n && LoadedSince(ss, i, k, n)
      ensures !Overwrites(attrs, ss[k], calls[k], i, Recent(attrs, ss, calls, rs, k))
    {
      if calls[k].ResetImage? && calls[k].id in attrs && Loaded(ss[k], calls[k].id) {
        ResetsCopied(attrs, ss, calls, rs, calls[k].id, k);
      }
    }
    hide IsRunFromReset, Overwrites;
    MemoryIsCopied(attrs, ss, calls, rs, i, n);
  }

  lemma ResetsCopied(attrs: Attrs, ss: seq<View>, calls: seq<Call>, rs: seq<Status>, j: Id, k: nat)
    requires IsRunFromReset(attrs, ss, calls, rs) && k <= |calls| && OnlyNormalAuth(ss, calls, k)
    requires j in attrs && Loaded(ss[k], j)
    ensures j in Recent(attrs, ss, calls, rs, k) || ss[k].descs[j].copied == 0
  {
    RunInv(attrs, ss, calls, rs, k);
    InvImage(attrs, ss[k], j);
    hide Inv, IsRunFromReset;
    if attrs[j].secure {
      SecureIsCopied(attrs, ss, calls, rs, j, k);
    }
  }

  /** Then also no two secure images that are not reset share an address. */
  lemma SecureShareNothing(attrs: Attrs, ss: seq<View>, calls: seq<Call>, rs: seq<Status>, i: Id, j: Id, n: nat)
    requires IsRunFromReset(attrs, ss, calls, rs) && n <= |calls| && OnlyNormalAuth(ss, calls, n) && i != j
    requires i in attrs && j in attrs && attrs[i].secure && attrs[j].secure && Loaded(ss[n], i) && Loaded(ss[n], j)
    ensures forall a :: InRange(a, attrs[i].base, ss[n].descs[i].size) ==> !InRange(a, attrs[j].base, ss[n].descs[j].size)
  {
    SecureIsCopied(attrs, ss, calls, rs, i, n);
    SecureIsCopied(attrs, ss, calls, rs, j, n);
    CopiedShareNothing(attrs, ss, calls, rs, i, j, n);
  }

  // ---------------------------------------------------------------------------------------------
  // What calls for other images leave alone
  // ---------------------------------------------------------------------------------------------

  predicate Names(c: Call, i: Id) {
    (c.Copy? || c.Auth? || c.Execute? || c.ResetImage?) && c.id == i
  }

  /** The record that a call leaves. */
  ghost function BlocksAfter(attrs: Attrs, v: View, c: Call, r: Status): map<Id, seq<Byte>> {
    match c
    case Copy(id, _, _, _, _, _) =>
      if r.Success? && id in v.descs then Recorded(v.descs, v.blocks, id, ClippedBlock(v, c)) else v.blocks
    case Store(at, bytes) => v.blocks - Met(attrs, v.descs, at, |bytes|)
    case ResetImage(id) =>
      if id in attrs && Loaded(v, id) && v.world.Normal? && !v.descs[id].state.Executed? && Image(id) in v.table
      then Unspoilt(attrs, v, id, v.descs[id].copied) else v.blocks
    case _ => v.blocks
  }

  /** What is recorded does not matter to a call. */
  lemma AnyRecord(attrs: Attrs, v: View, c: Call, r: Status, v': View, blocks: map<Id, seq<Byte>>)
    requires Step(attrs, v, c, r, v')
    ensures var w := v.(blocks := blocks); Step(attrs, w, c, r, v'.(blocks := BlocksAfter(attrs, w, c, r)))
  {
    hide CopyStep, Removed, Unlisted, Added, Write, Zeros, Met, AuthStep;
    if c.Copy? {
      AnyRecordCopy(attrs, v, c, r, v', blocks);
    } else if c.Auth? {
      AnyRecordAuth(attrs, v, c, r, v', blocks);
    }
  }

  lemma AnyRecordAuth(attrs: Attrs, v: View, c: Call, r: Status, v': View, blocks: map<Id, seq<Byte>>)
    requires c.Auth? && Step(attrs, v, c, r, v')
    ensures Step(attrs, v.(blocks := blocks), c, r, v'.(blocks := blocks))
  {
    hide Added, Unlisted, Write, Zeros, HasSlot;
  }

  lemma AnyRecordCopy(attrs: Attrs, v: View, c: Call, r: Status, v': View, blocks: map<Id, seq<Byte>>)
    requires c.Copy? && Step(attrs, v, c, r, v')
    ensures var w := v.(blocks := blocks); Step(attrs, w, c, r, v'.(blocks := BlocksAfter(attrs, w, c, r)))
  {
    hide Added, Write, Read, HasSlot, AllClear;
  }

  lemma RecordOne(attrs: Attrs, v: View, i: Id)
    requires Inv(attrs, v) && i in attrs && i in v.descs
    ensures Inv(attrs, v.(blocks := map[i := Read(v.mem, attrs[i].base, v.descs[i].copied)]))
  {
    hide Apart, ImagesOk, TableOk, WorldOk;
  }

  /** The record of a bystander stays, and so does its description. */
  lemma BystanderRecord(attrs: Attrs, v: View, c: Call, r: Status, v': View, i: Id)
    requires Inv(attrs, v) && Step(attrs, v, c, r, v') && i in attrs && i in v.via && Loaded(v, i)
    requires Waiting(v.descs[i].state) && !Names(c, i) && !Overwrites(attrs, v, c, i, v.via) && i in v.blocks
    ensures i in v'.via && i in v'.descs && v'.descs[i] == v.descs[i]
    ensures i in v'.blocks && v'.blocks[i] == v.blocks[i]
  {
    InvParts(attrs, v);
    InvRecorded(attrs, v);
    if v.secExec.Image? { InvImage(attrs, v, v.secExec.id); }
    hide Inv, Added, Removed, Unlisted, Write, Zeros, Read, Met, CopyAdmitted, Placed;
  }

  /** A call for other images leaves an image that was copied and waits as it is, its bytes included. */
  lemma BystanderKeeps(attrs: Attrs, v: View, c: Call, r: Status, v': View, i: Id)
    requires Inv(attrs, v) && Step(attrs, v, c, r, v') && i in attrs && i in v.via && Loaded(v, i)
    requires Waiting(v.descs[i].state) && !Names(c, i) && !Overwrites(attrs, v, c, i, v.via)
    ensures i in v'.via && i in v'.descs && v'.descs[i] == v.descs[i]
    ensures Read(v'.mem, attrs[i].base, v.descs[i].copied) == Read(v.mem, attrs[i].base, v.descs[i].copied)
  {
    var bytes := Read(v.mem, attrs[i].base, v.descs[i].copied);
    var w := v.(blocks := map[i := bytes]);
    var w' := v'.(blocks := BlocksAfter(attrs, w, c, r));
    RecordOne(attrs, v, i);
    AnyRecord(attrs, v, c, r, v', w.blocks);
    SameOverwrites(attrs, v, c, i, w.blocks);
    hide Step, Overwrites, BlocksAfter, Inv, Read, Holds;
    StepKeeps(attrs, w, c, r, w');
    BystanderRecord(attrs, w, c, r, w', i);
    InvImage(attrs, w', i);
    HeldIsRead(v'.mem, attrs[i].base, bytes);
  }

  lemma HeldIsRead(mem: Memory, base: nat, bytes: seq<Byte>)
    requires Holds(mem, base, bytes)
    ensures Read(mem, base, |bytes|) == bytes
  {
  }

  lemma SameOverwrites(attrs: Attrs, v: View, c: Call, i: Id, blocks: map<Id, seq<Byte>>)
    ensures Overwrites(attrs, v, c, i, v.via) <==> Overwrites(attrs, v.(blocks := blocks), c, i, v.via)
  {
  }

  /** State, sizes and bytes of an image are what they were. */
  ghost predicate Intact(attrs: Attrs, v: View, v': View, i: Id)
    requires i in attrs
  {
    && i in v.descs && i in v'.descs && v'.descs[i] == v.descs[i]
    && Read(v'.mem, attrs[i].base, v.descs[i].copied) == Read(v.mem, attrs[i].base, v.descs[i].copied)
  }

  /**
   In any run, whatever calls are made for other images: an image that was copied and waits keeps its state, its sizes
   and its bytes, unless a world writes over it or the reset of an image that was authenticated in place does.
   */
  lemma {:induction false} BystanderStays(attrs: Attrs, ss: seq<View>, calls: seq<Call>, rs: seq<Status>, i: Id, m: nat, n: nat)
    requires IsRunFromReset(attrs, ss, calls, rs) && m <= n <= |calls| && i in attrs
    requires CopiedSince(ss, calls, rs, i, m) && Loaded(ss[m], i) && Waiting(ss[m].descs[i].state)
    requires forall k :: m <= k < n ==>
      !Names(calls[k], i) && !Overwrites(attrs, ss[k], calls[k], i, Recent(attrs, ss, calls, rs, k))
    ensures CopiedSince(ss, calls, rs, i, n) && Intact(attrs, ss[m], ss[n], i)
    decreases n - m
  {
    if m < n {
      hide IsRunFromReset, CopiedSince, Overwrites, Recent, Names, Intact, Waiting;
      BystanderStays(attrs, ss, calls, rs, i, m, n - 1);
      IntactWaits(attrs, ss[m], ss[n - 1], i);
      BystanderStep(attrs, ss, calls, rs, i, n - 1);
      IntactTransitive(attrs, ss[m], ss[n - 1], ss[n], i);
    } else {
      assert Intact(attrs, ss[m], ss[m], i);
    }
  }

  lemma BystanderStep(attrs: Attrs, ss: seq<View>, calls: seq<Call>, rs: seq<Status>, i: Id, k: nat)
    requires IsRunFromReset(attrs, ss, calls, rs) && k < |calls| && i in attrs
    requires CopiedSince(ss, calls, rs, i, k) && Loaded(ss[k], i) && Waiting(ss[k].descs[i].state)
    requires !Names(calls[k], i) && !Overwrites(attrs, ss[k], calls[k], i, Recent(attrs, ss, calls, rs, k))
    ensures CopiedSince(ss, calls, rs, i, k + 1) && Intact(attrs, ss[k], ss[k + 1], i)
  {
    hide IsRunFromReset, CopiedSince, Overwrites, Recent, Read, Names, Inv, Step;
    RunInv(attrs, ss, calls, rs, k);
    RunStep(attrs, ss, calls, rs, k + 1);
    ViaMeans(attrs, ss, calls, rs, i, k);
    ViaMeans(attrs, ss, calls, rs, i, k + 1);
    RecentIsVia(attrs, ss, calls, rs, i, k);
    BystanderKeeps(attrs, ss[k], calls[k], rs[k], ss[k + 1], i);
  }

  lemma IntactWaits(attrs: Attrs, v: View, v': View, i: Id)
    requires i in attrs && Loaded(v, i) && Waiting(v.descs[i].state) && Intact(attrs, v, v', i)
    ensures Loaded(v', i) && Waiting(v'.descs[i].state)
  {
  }

  lemma IntactTransitive(attrs: Attrs, u: View, v: View, w: View, i: Id)
    requires i in attrs && Intact(attrs, u, v, i) && Intact(attrs, v, w, i)
    ensures Intact(attrs, u, w, i)
  {
    hide Read;
  }

  lemma RecentIsVia(attrs: Attrs, ss: seq<View>, calls: seq<Call>, rs: seq<Status>, i: Id, k: nat)
    requires IsRunFromReset(attrs, ss, calls, rs) && k < |calls|
    ensures Overwrites(attrs, ss[k], calls[k], i, ss[k].via) <==>
            Overwrites(attrs, ss[k], calls[k], i, Recent(attrs, ss, calls, rs, k))
  {
    if calls[k].ResetImage? && calls[k].id in attrs {
      ViaMeans(attrs, ss, calls, rs, calls[k].id, k);
    }
    hide IsRunFromReset, CopiedSince, Met;
  }

  /** If only the normal world has images authenticated, and no world writes over it, nothing but calls for it change it. */
  lemma SecureBystanderStays(attrs: Attrs, ss: seq<View>, calls: seq<Call>, rs: seq<Status>, i: Id, m: nat, n: nat)
    requires IsRunFromReset(attrs, ss, calls, rs) && m <= n <= |calls| && i in attrs && attrs[i].secure
    requires OnlyNormalAuth(ss, calls, n) && Loaded(ss[m], i) && Waiting(ss[m].descs[i].state)
    requires forall k :: m <= k < n ==>
      !Names(calls[k], i) && (calls[k].Store? ==> i !in Met(attrs, ss[k].descs, calls[k].at, |calls[k].bytes|))
    ensures Intact(attrs, ss[m], ss[n], i)
  {
    SecureIsCopied(attrs, ss, calls, rs, i, m);
    forall k | m <= k < n ensures !Overwrites(attrs, ss[k], calls[k], i, Recent(attrs, ss, calls, rs, k)) {
      if calls[k].ResetImage? && calls[k].id in attrs && Loaded(ss[k], calls[k].id) {
        ResetsCopied(attrs, ss, calls, rs, calls[k].id, k);
      }
    }
    hide IsRunFromReset, Overwrites, CopiedSince, Intact;
    BystanderStays(attrs, ss, calls, rs, i, m, n);
  }

  // ---------------------------------------------------------------------------------------------
  // What is executed
  // ---------------------------------------------------------------------------------------------

  predicate PastAuthentication(v: View, i: Id) {
    i in v.descs && var s := v.descs[i].state; s.Authenticated? || s.Executed? || s.Interrupted?
  }

  predicate IsAuthenticated(v: View, i: Id) {
    i in v.descs && v.descs[i].state.Authenticated?
  }

  /** An authenticated image is not copied or authenticated again before it is reset, nor executed twice. */
  lemma StaysPast(attrs: Attrs, v: View, c: Call, r: Status, v': View, i: Id)
    requires Inv(attrs, v) && Step(attrs, v, c, r, v') && i in attrs && attrs[i].secure
    requires PastAuthentication(v, i) && Loaded(v', i)
    ensures PastAuthentication(v', i) && (IsAuthenticated(v', i) ==> IsAuthenticated(v, i))
  {
    InvParts(attrs, v);
    InvRecorded(attrs, v);
    InvImage(attrs, v, i);
    hide Inv, Added, Removed, Unlisted, Write, Zeros, Read, Met, CopyAdmitted, Placed, AfterReset;
  }

  /** While it stays authenticated its bytes stay. */
  lemma AuthenticatedKeeps(attrs: Attrs, v: View, c: Call, r: Status, v': View, i: Id)
    requires Inv(attrs, v) && Step(attrs, v, c, r, v') && i in attrs && i in v.via && !Overwrites(attrs, v, c, i, v.via)
    requires IsAuthenticated(v, i) && IsAuthenticated(v', i)
    ensures Intact(attrs, v, v', i)
  {
    if Names(c, i) {
      hide Added, Removed, Unlisted, Write, Zeros, Read, CopyAdmitted, Placed, AfterReset;
    } else {
      hide Step, Overwrites, Names, Inv, Read;
      BystanderKeeps(attrs, v, c, r, v', i);
    }
  }

  /** No world writes over image i in a call from the m-th on, before the n-th. */
  ghost predicate NoStoreOver(attrs: Attrs, ss: seq<View>, calls: seq<Call>, i: Id, m: nat, n: nat)
    requires n < |ss| == |calls| + 1
  {
    forall k :: m <= k < n && calls[k].Store? ==> i !in Met(attrs, ss[k].descs, calls[k].at, |calls[k].bytes|)
  }

  lemma OnlyStoresOverwrite(attrs: Attrs, ss: seq<View>, calls: seq<Call>, rs: seq<Status>, i: Id, k: nat)
    requires IsRunFromReset(attrs, ss, calls, rs) && k < |calls| && OnlyNormalAuth(ss, calls, k)
    requires calls[k].Store? ==> i !in Met(attrs, ss[k].descs, calls[k].at, |calls[k].bytes|)
    ensures !Overwrites(attrs, ss[k], calls[k], i, ss[k].via)
  {
    if calls[k].ResetImage? && calls[k].id in attrs && Loaded(ss[k], calls[k].id) {
      ResetsCopied(attrs, ss, calls, rs, calls[k].id, k);
      ViaMeans(attrs, ss, calls, rs, calls[k].id, k);
    }
  }

  lemma {:induction false} AuthenticatedStays(attrs: Attrs, ss: seq<View>, calls: seq<Call>, rs: seq<Status>, i: Id,
                                              a: nat, n: nat)
    requires IsRunFromReset(attrs, ss, calls, rs) && a < n <= |calls| && i in attrs && attrs[i].secure
    requires OnlyNormalAuth(ss, calls, n) && Authenticates(calls[a], rs[a], i) && LoadedSince(ss, i, a, n)
    requires NoStoreOver(attrs, ss, calls, i, a + 1, n)
    ensures PastAuthentication(ss[n], i) && (IsAuthenticated(ss[n], i) ==> Intact(attrs, ss[a + 1], ss[n], i))
    decreases n - a
  {
    if n == a + 1 {
      RunStep(attrs, ss, calls, rs, n);
      hide IsRunFromReset, Added, Placed, Write, Zeros;
      assert Intact(attrs, ss[n], ss[n], i);
    } else {
      hide IsRunFromReset, Intact, Overwrites, Step, Inv, Met, LoadedSince, IsAuthenticated;
      SinceMore(ss, i, a, n);
      AuthenticatedStays(attrs, ss, calls, rs, i, a, n - 1);
      AuthenticatedStep(attrs, ss, calls, rs, i, n);
      if IsAuthenticated(ss[n], i) {
        IntactTransitive(attrs, ss[a + 1], ss[n - 1], ss[n], i);
      }
    }
  }

  lemma AuthenticatedStep(attrs: Attrs, ss: seq<View>, calls: seq<Call>, rs: seq<Status>, i: Id, n: nat)
    requires IsRunFromReset(attrs, ss, calls, rs) && 0 < n <= |calls| && i in attrs && attrs[i].secure
    requires OnlyNormalAuth(ss, calls, n) && PastAuthentication(ss[n - 1], i) && Loaded(ss[n], i)
    requires NoStoreOver(attrs, ss, calls, i, n - 1, n)
    ensures PastAuthentication(ss[n], i)
    ensures IsAuthenticated(ss[n], i) ==> IsAuthenticated(ss[n - 1], i) && Intact(attrs, ss[n - 1], ss[n], i)
  {
    hide IsRunFromReset, Intact, Overwrites, Step, Inv, Met;
    RunInv(attrs, ss, calls, rs, n - 1);
    RunStep(attrs, ss, calls, rs, n);
    StaysPast(attrs, ss[n - 1], calls[n - 1], rs[n - 1], ss[n], i);
    if IsAuthenticated(ss[n], i) {
      SecureIsCopied(attrs, ss, calls, rs, i, n - 1);
      ViaMeans(attrs, ss, calls, rs, i, n - 1);
      OnlyStoresOverwrite(attrs, ss, calls, rs, i, n - 1);
      AuthenticatedKeeps(attrs, ss[n - 1], calls[n - 1], rs[n - 1], ss[n], i);
    }
  }

  /** The a-th call authenticated image i, and unless a world wrote over it, its bytes are the same before the n-th call. */
  ghost predicate SameSince(attrs: Attrs, ss: seq<View>, calls: seq<Call>, rs: seq<Status>, i: Id, a: nat, n: nat)
    requires a <= n < |ss| == |calls| + 1 == |rs| + 1 && a < |calls| && i in attrs
  {
    && Authenticates(calls[a], rs[a], i) && LoadedSince(ss, i, a, n) && i in ss[a].descs && i in ss[n].descs
    && (NoStoreOver(attrs, ss, calls, i, a + 1, n) ==>
          && ss[n].descs[i].size == ss[a].descs[i].size
          && Read(ss[n].mem, attrs[i].base, ss[n].descs[i].size) == Read(ss[a].mem, attrs[i].base, ss[a].descs[i].size))
  }

  /** Authentication takes an image that is copied as a whole, and changes no byte. */
  lemma AuthenticatesWhole(attrs: Attrs, v: View, c: Call, r: Status, v': View, i: Id)
    requires Inv(attrs, v) && Step(attrs, v, c, r, v') && i in attrs && attrs[i].secure
    requires Authenticates(c, r, i) && v.world.Normal?
    ensures i in v.descs && i in v'.descs && v.descs[i].copied == v.descs[i].size
    ensures v'.descs[i] == v.descs[i].(state := Authenticated) && v'.mem == v.mem
  {
    InvParts(attrs, v);
    InvImage(attrs, v, i);
    hide Inv, Added, Write, Zeros, Placed;
  }

  lemma SuccessOfExecute(attrs: Attrs, v: View, i: Id, r: Status, v': View)
    requires Step(attrs, v, Execute(i), r, v') && r.Success?
    ensures i in attrs && attrs[i].secure && IsAuthenticated(v, i)
  {
  }

  /**
   If only the normal world has images authenticated: an image that is executed was authenticated after its last reset,
   and unless a world wrote over it in between, the bytes that are executed are the bytes that were authenticated.
   */
  lemma ExecutesWhatWasAuthenticated(attrs: Attrs, ss: seq<View>, calls: seq<Call>, rs: seq<Status>, i: Id, n: nat)
    requires IsRunFromReset(attrs, ss, calls, rs) && n < |calls| && OnlyNormalAuth(ss, calls, n)
    requires calls[n] == Execute(i) && rs[n].Success?
    ensures i in attrs && exists a :: 0 <= a < n && SameSince(attrs, ss, calls, rs, i, a, n)
  {
    hide IsRunFromReset, Step, Inv, LoadedSince, NoStoreOver;
    RunStep(attrs, ss, calls, rs, n + 1);
    SuccessOfExecute(attrs, ss[n], i, rs[n], ss[n + 1]);
    ExecutedIsAuthenticated(attrs, ss, calls, rs, i, n);
    var a :| 0 <= a < n && Authenticates(calls[a], rs[a], i) && LoadedSince(ss, i, a, n);
    RunInv(attrs, ss, calls, rs, a);
    RunStep(attrs, ss, calls, rs, a + 1);
    AuthenticatesWhole(attrs, ss[a], calls[a], rs[a], ss[a + 1], i);
    if NoStoreOver(attrs, ss, calls, i, a + 1, n) {
      AuthenticatedStays(attrs, ss, calls, rs, i, a, n);
    }
    assert SameSince(attrs, ss, calls, rs, i, a, n);
  }
}
