/**
 Exception priorities at EL3: a bitmap holds the stack of active priority levels, and the interrupt
 controller's priority mask follows it. A panic or a failed assertion ends the run.
 */
module Ehf {
  import opened Words

  const HIGHEST_NS: nat := 0x80

  predicate IsSecure(priority: nat) {
    And(priority, 0x80) == 0
  }

  /** __builtin_ctz, for words that are not 0. */
  function Ctz(x: nat): nat
    requires x > 0
  {
    if x % 2 == 1 then 0 else 1 + Ctz(x / 2)
  }

  predicate Bit(x: nat, i: nat) {
    if i == 0 then x % 2 == 1 else Bit(x / 2, i - 1)
  }

  ghost predicate Decreasing(s: seq<nat>) {
    forall i, j :: 0 <= i < j < |s| ==> s[i] > s[j]
  }

  /** The word with the bits of s. */
  ghost function Encode(s: seq<nat>): nat {
    if s == [] then 0 else Encode(s[..|s| - 1]) + Pow2(s[|s| - 1])
  }

  function Odd(m: nat, t: nat): (x: nat)
    ensures x > 0
  {
    if t == 0 then 2 * m + 1 else 2 * Odd(m, t - 1)
  }

  function Even(m: nat, t: nat): nat {
    if t == 0 then 2 * m else 2 * Even(m, t - 1)
  }

  lemma {:induction false} AndSame(x: nat)
    ensures And(x, x) == x
  {
    if x > 0 { AndSame(x / 2); }
  }

  /** Of a word whose lowest bit is t, with m above it. */
  lemma {:induction false} LowestBit(m: nat, t: nat)
    ensures Ctz(Odd(m, t)) == t && And(Odd(m, t), Odd(m, t) - 1) == Even(m, t)
  {
    if t == 0 {
      LowestOdd(m);
    } else {
      hide And, Ctz;
      LowestBit(m, t - 1);
      AndBelow(Odd(m, t - 1));
      CtzDouble(Odd(m, t - 1));
    }
  }

  lemma LowestOdd(m: nat)
    ensures Ctz(2 * m + 1) == 0 && And(2 * m + 1, 2 * m) == 2 * m
  {
    hide And;
    AndSame(m);
    AndOdd(m);
  }

  lemma CtzDouble(x: nat)
    requires x > 0
    ensures Ctz(2 * x) == 1 + Ctz(x)
  {
    assert 2 * x % 2 == 0 && 2 * x / 2 == x;
  }

  lemma {:induction false} SetLowest(m: nat, t: nat)
    ensures Or(Even(m, t), Pow2(t)) == Odd(m, t) == Even(m, t) + Pow2(t)
  {
    if t == 0 {
      OrZero(m);
    } else {
      hide Or;
      SetLowest(m, t - 1);
      OrEven(Even(m, t - 1), Pow2(t - 1));
    }
  }

  lemma AndOdd(m: nat)
    ensures And(2 * m + 1, 2 * m) == 2 * And(m, m)
  {
    assert (2 * m + 1) / 2 == m && 2 * m / 2 == m;
  }

  lemma AndBelow(x: nat)
    requires x > 0
    ensures And(2 * x, 2 * x - 1) == 2 * And(x, x - 1)
  {
    assert (2 * x - 1) / 2 == x - 1 && (2 * x - 1) % 2 == 1 && 2 * x / 2 == x;
  }

  lemma OrZero(m: nat)
    ensures Or(2 * m, 1) == 2 * m + 1
  {
    if m > 0 { assert Or(m, 0) == m; }
  }

  lemma OrEven(x: nat, y: nat)
    ensures Or(2 * x, 2 * y) == 2 * Or(x, y)
  {
  }

  lemma {:induction false} BitOfLowest(m: nat, t: nat, i: nat)
    ensures Bit(Odd(m, t), i) <==> i == t || Bit(Even(m, t), i)
    ensures i <= t ==> !Bit(Even(m, t), i)
  {
    if t == 0 {
      if i > 0 { assert (2 * m + 1) / 2 == m == 2 * m / 2; }
    } else if i > 0 {
      BitOfLowest(m, t - 1, i - 1);
    }
  }

  lemma {:induction false} EvenOfPow2(j: nat, t: nat) returns (m: nat)
    requires j > t
    ensures Even(m, t) == Pow2(j)
  {
    if t == 0 {
      m := Pow2(j - 1);
    } else {
      m := EvenOfPow2(j - 1, t - 1);
    }
  }

  lemma {:induction false} EvenAdds(m: nat, n: nat, t: nat)
    ensures Even(m + n, t) == Even(m, t) + Even(n, t)
  {
    if t > 0 { EvenAdds(m, n, t - 1); }
  }

  lemma {:induction false} EvenOfNone(t: nat)
    ensures Even(0, t) == 0
  {
    if t > 0 { EvenOfNone(t - 1); }
  }

  /** With every level above t. */
  lemma {:induction false} Above(s: seq<nat>, t: nat) returns (m: nat)
    requires forall i :: 0 <= i < |s| ==> s[i] > t
    ensures Even(m, t) == Encode(s)
  {
    if s == [] {
      EvenOfNone(t);
      m := 0;
    } else {
      var rest := Above(s[..|s| - 1], t);
      var top := EvenOfPow2(s[|s| - 1], t);
      EvenAdds(rest, top, t);
      m := rest + top;
    }
  }

  /** The bits of a stack: its lowest one is the top, and setting, finding and clearing that one is push, top and pop. */
  lemma PushPop(s: seq<nat>, t: nat)
    requires Decreasing(s + [t])
    ensures Encode(s + [t]) == Or(Encode(s), Pow2(t)) > 0
    ensures Ctz(Encode(s + [t])) == t && And(Encode(s + [t]), Encode(s + [t]) - 1) == Encode(s)
  {
    hide And, Or, Pow2, Ctz, Odd, Even;
    assert forall i :: 0 <= i < |s| ==> s[i] == (s + [t])[i] > (s + [t])[|s|];
    var m := Above(s, t);
    LowestBit(m, t);
    SetLowest(m, t);
    assert (s + [t])[..|s|] == s;
  }

  lemma {:induction false} BitsAreMembers(s: seq<nat>, i: nat)
    requires Decreasing(s)
    ensures Bit(Encode(s), i) <==> i in s
  {
    if s == [] {
      NoBits(i);
    } else {
      hide And, Or, Pow2, Ctz, Odd, Even, Bit;
      var front, t := s[..|s| - 1], s[|s| - 1];
      BitsAreMembers(front, i);
      var m := Above(front, t);
      SetLowest(m, t);
      BitOfLowest(m, t, i);
      assert s == front + [t];
    }
  }

  lemma {:induction false} NoBits(i: nat)
    ensures !Bit(0, i)
  {
    if i > 0 { NoBits(i - 1); }
  }

  lemma {:induction false} EncodePositive(s: seq<nat>)
    ensures Encode(s) == 0 <==> s == []
  {
  }

  /** EHF_PRI_TO_IDX: the top bits of the lower seven. */
  function PriToIdx(priority: nat, bits: nat): nat
    requires bits <= 7
  {
    And(priority, 0x7f) / Pow2(7 - bits)
  }

  /** IDX_TO_PRI */
  function IdxToPri(idx: nat, bits: nat): nat
    requires bits <= 7
  {
    And(idx * Pow2(7 - bits), 0x7f)
  }

  lemma MaskSeven(x: nat)
    ensures And(x, 0x7f) == x % 128
  {
    assert Pow2(7) == 128;
    AndMask(x, 7);
    LowIsMod(x, 7);
  }

  lemma {:induction false} TimesMonotone(a: nat, b: nat, m: nat)
    requires a < b
    ensures a * m + m <= b * m
  {
    if a + 1 < b { TimesMonotone(a, b - 1, m); }
  }

  lemma DivTimes(a: nat, m: nat)
    requires m > 0
    ensures a * m / m == a
  {
    var q := a * m / m;
    assert a * m == q * m + a * m % m;
    if q < a { TimesMonotone(q, a, m); } else if a < q { TimesMonotone(a, q, m); }
  }

  /** A level's priority is its number shifted into place, and secure. */
  lemma LevelPriority(i: nat, bits: nat)
    requires bits <= 7 && i < Pow2(bits)
    ensures IdxToPri(i, bits) == i * Pow2(7 - bits) < 0x80
  {
    hide And, Pow2;
    Pow2Adds(bits, 7 - bits);
    TimesMonotone(i, Pow2(bits), Pow2(7 - bits));
    Seven();
    MaskSeven(i * Pow2(7 - bits));
  }

  lemma Seven()
    ensures Pow2(7) == 128
  {
  }

  /** Levels are numbered in the order of their priorities. */
  lemma LevelOrder(i: nat, j: nat, bits: nat)
    requires bits <= 7 && i < Pow2(bits) && j < Pow2(bits)
    ensures PriToIdx(IdxToPri(i, bits), bits) == i
    ensures i < j ==> IdxToPri(i, bits) < IdxToPri(j, bits)
  {
    hide And, Pow2, IdxToPri;
    LevelPriority(i, bits);
    LevelPriority(j, bits);
    MaskSeven(i * Pow2(7 - bits));
    DivTimes(i, Pow2(7 - bits));
    if i < j { TimesMonotone(i, j, Pow2(7 - bits)); }
  }

  lemma SecureHalf(priority: nat)
    requires priority < 0x100
    ensures IsSecure(priority) <==> priority < 0x80
  {
    hide And;
    Seven();
    assert Pow2(8) == 256;
    AndNeg(priority, 7, 8);
    LowIsMod(priority, 7);
  }

  predicate IsLevel(priority: nat, bits: nat)
    requires bits <= 7
  {
    exists i :: 0 <= i < Pow2(bits) && priority == IdxToPri(i, bits)
  }

  lemma LevelOf(priority: nat, bits: nat) returns (i: nat)
    requires bits <= 7 && IsLevel(priority, bits)
    ensures i == PriToIdx(priority, bits) < Pow2(bits) && priority == IdxToPri(i, bits) < 0x80
  {
    hide And, Pow2, IdxToPri, PriToIdx;
    i :| 0 <= i < Pow2(bits) && priority == IdxToPri(i, bits);
    LevelOrder(i, i, bits);
    LevelPriority(i, bits);
  }

  /** Where the mask must be: at or below the priority of every active level. */
  ghost predicate Strict(mask: nat, s: seq<nat>, bits: nat)
    requires bits <= 7
  {
    forall i :: 0 <= i < |s| ==> s[i] < Pow2(bits) && mask <= IdxToPri(s[i], bits)
  }

  lemma PushStrict(mask: nat, s: seq<nat>, bits: nat, idx: nat, priority: nat)
    requires bits <= 7 && Strict(mask, s, bits) && priority < mask && idx < Pow2(bits) && priority == IdxToPri(idx, bits)
    ensures Strict(priority, s + [idx], bits)
  {
    hide Pow2, IdxToPri;
  }

  /** The level taken off the stack is stricter than the others. */
  lemma PopStrict(mask: nat, s: seq<nat>, bits: nat)
    requires bits <= 7 && Strict(mask, s, bits) && Decreasing(s) && s != []
    ensures Strict(IdxToPri(s[|s| - 1], bits), s[..|s| - 1], bits) && Decreasing(s[..|s| - 1])
  {
    hide Pow2, IdxToPri;
    forall i | 0 <= i < |s| - 1 ensures IdxToPri(s[|s| - 1], bits) <= IdxToPri(s[i], bits) {
      LevelOrder(s[|s| - 1], s[i], bits);
    }
  }

  lemma PushDecreasing(s: seq<nat>, idx: nat)
    requires Decreasing(s) && (s == [] || idx < s[|s| - 1])
    ensures Decreasing(s + [idx])
  {
  }

  /** The top of a stack, as its bits tell. */
  lemma TopOf(s: seq<nat>)
    requires Decreasing(s)
    ensures s == [] <==> Encode(s) == 0
    ensures s != [] ==> Encode(s) > 0 && Ctz(Encode(s)) == s[|s| - 1] && And(Encode(s), Encode(s) - 1) == Encode(s[..|s| - 1])
  {
    if s != [] {
      hide Ctz, And, Encode;
      assert s == s[..|s| - 1] + [s[|s| - 1]];
      PushPop(s[..|s| - 1], s[|s| - 1]);
    }
  }

  /** With one bit of priority there are two levels. */
  lemma LevelValues()
    ensures PriToIdx(0, 1) == 0 && PriToIdx(0x40, 1) == 1 && IsLevel(0, 1) && IsLevel(0x40, 1)
  {
    assert Pow2(6) == 64 && Pow2(1) == 2;
    MaskSeven(0);
    MaskSeven(64);
    assert IdxToPri(0, 1) == 0 && IdxToPri(1, 1) == 64;
  }

  datatype Phase = Outside | Inside(mask: nat, allowed: bool)

  datatype Op = Activate(priority: nat, running: nat) | Deactivate(priority: nat, running: nat) | Allow

  /** The exception data of one processing element, and its interrupt controller. */
  class Pe {
    const levelBits: nat
    const levels: seq<bool>   // the valid ones
    var activeBits: nat
    var initMask: nat
    var nsMask: nat
    var mask: nat             // the controller's priority mask
    ghost var stack: seq<nat> // active levels, the strictest last
    ghost var phase: Phase    // with the mask of the normal world, while the secure one runs

    /** The mask that is in force once no level is active any more. */
    ghost function Base(): nat
      reads this`stack, this`mask, this`initMask
    {
      if stack == [] then mask else initMask
    }

    ghost predicate PhaseOk()
      reads this`phase, this`nsMask, this`stack, this`mask, this`initMask
    {
      match phase
      case Outside => nsMask == 0
      case Inside(orig, allowed) =>
        0x80 <= orig < 0x100 && if allowed then nsMask == 0 && Base() == orig else nsMask == orig && Base() == HIGHEST_NS
    }

    ghost predicate Valid()
      reads this
    {
      && levelBits <= 7 && |levels| <= 32 && mask < 0x100
      && Decreasing(stack) && activeBits == Encode(stack) && Strict(mask, stack, levelBits)
      && initMask < 0x100 && PhaseOk()
    }

    ghost predicate IsValidLevel(idx: nat)
    {
      idx < |levels| && levels[idx]
    }

    /** ehf_activate_priority; false if it panics. */
    method ActivatePriority(priority: nat, running: nat) returns (ok: bool)
      requires Valid() && IsLevel(priority, levelBits)
      modifies this`activeBits, this`mask, this`initMask, this`stack
      ensures var idx := PriToIdx(priority, levelBits);
        && (ok <==> && priority < running && IsValidLevel(idx) && priority < old(mask)
                    && (old(stack) == [] || idx < old(stack)[|old(stack)| - 1]))
        && (ok ==> Valid() && stack == old(stack) + [idx] && mask == priority && Base() == old(Base()))
    {
      hide Strict, Decreasing, Encode, Ctz, And, Or, Pow2, PriToIdx, IdxToPri, IsLevel;
      if priority >= running {
        return false;
      }
      TopOf(stack);
      var cur := if activeBits == 0 then -1 else Ctz(activeBits);
      var idx := PriToIdx(priority, levelBits);
      ghost var level := LevelOf(priority, levelBits);
      if idx >= |levels| || !levels[idx] {
        return false;
      }
      if cur != -1 && idx >= cur {
        return false;
      }
      PushDecreasing(stack, idx);
      PushPop(stack, idx);
      activeBits := Or(activeBits, Pow2(idx));
      var oldMask := mask;
      mask := priority;
      if priority >= oldMask {
        return false;
      }
      if cur == -1 {
        initMask := oldMask;
      }
      PushStrict(oldMask, stack, levelBits, idx, priority);
      stack := stack + [idx];
      return true;
    }

    /** ehf_deactivate_priority; false if it panics. */
    method DeactivatePriority(priority: nat, running: nat) returns (ok: bool)
      requires Valid() && IsLevel(priority, levelBits)
      modifies this`activeBits, this`mask, this`stack
      ensures var idx := PriToIdx(priority, levelBits);
        && (ok <==> priority < running && IsValidLevel(idx) && old(stack) != [] && idx == old(stack)[|old(stack)| - 1])
        && (ok ==> && Valid() && stack == old(stack)[..|old(stack)| - 1] && Base() == old(Base())
                   && (stack != [] ==> mask == priority))
    {
      hide Strict, Decreasing, Encode, Ctz, And, Or, Pow2, PriToIdx, IdxToPri, IsLevel;
      if priority >= running {
        return false;
      }
      TopOf(stack);
      var cur := if activeBits == 0 then -1 else Ctz(activeBits);
      var idx := PriToIdx(priority, levelBits);
      ghost var level := LevelOf(priority, levelBits);
      if idx >= |levels| || !levels[idx] {
        return false;
      }
      if cur == -1 || idx != cur {
        return false;
      }
      PopStrict(mask, stack, levelBits);
      StrictTop(mask, stack, levelBits);
      activeBits := And(activeBits, activeBits - 1);
      stack := stack[..|stack| - 1];
      TopOf(stack);
      cur := if activeBits == 0 then -1 else Ctz(activeBits);
      var oldMask := mask;
      mask := if cur == -1 then initMask else priority;
      assert !(oldMask > priority);
      StrictNone(mask, levelBits);
      return true;
    }

    /** ehf_exited_normal_world; false if it panics. */
    method ExitedNormalWorld(running: nat) returns (ok: bool)
      requires Valid() && running < 0x100
      modifies this`mask, this`nsMask, this`phase
      ensures ok <==> running < 0x80 || stack != [] || (old(nsMask) == 0 && old(mask) >= 0x80)
      ensures ok ==> Valid()
      ensures ok && (running < 0x80 || stack != []) ==> mask == old(mask) && nsMask == old(nsMask) && phase == old(phase)
      ensures ok && running >= 0x80 && stack == [] ==> phase == Inside(old(mask), false) && mask == HIGHEST_NS
    {
      hide Decreasing, Encode, And, IsSecure;
      SecureHalf(running);
      SecureHalf(mask);
      EncodePositive(stack);
      if IsSecure(running) || activeBits != 0 {
        return true;
      }
      if nsMask != 0 {
        return false;
      }
      nsMask := mask;
      mask := HIGHEST_NS;
      if IsSecure(nsMask) {
        return false;
      }
      phase := Inside(nsMask, false);
      return true;
    }

    /** ehf_entering_normal_world; false if it panics, which it never does. */
    method EnteringNormalWorld(running: nat) returns (ok: bool)
      requires Valid() && running < 0x100
      modifies this`mask, this`nsMask, this`phase
      ensures ok && Valid()
      ensures running < 0x80 || stack != [] ==> mask == old(mask) && nsMask == old(nsMask) && phase == old(phase)
      ensures running >= 0x80 && stack == [] ==>
                phase == Outside && nsMask == 0 && mask == if old(phase).Outside? then old(mask) else old(phase).mask
    {
      hide Decreasing, Encode, And, IsSecure;
      SecureHalf(running);
      EncodePositive(stack);
      if IsSecure(running) || activeBits != 0 {
        return true;
      }
      if nsMask == 0 {
        phase := Outside;
        return true;
      }
      var oldMask := mask;
      mask := nsMask;
      if oldMask != HIGHEST_NS && oldMask != nsMask {
        return false;
      }
      nsMask := 0;
      phase := Outside;
      return true;
    }

    /** ehf_allow_ns_preemption; false if it panics. */
    method AllowNsPreemption() returns (ok: bool)
      requires Valid()
      modifies this`mask, this`nsMask, this`phase
      ensures ok <==> old(nsMask) != 0 && stack == []
      ensures ok ==> Valid() && nsMask == 0 && old(phase).Inside? && phase == Inside(old(phase).mask, true) && mask == old(nsMask)
    {
      hide Decreasing, Encode;
      EncodePositive(stack);
      if nsMask == 0 || activeBits != 0 {
        return false;
      }
      mask := nsMask;
      nsMask := 0;
      phase := Inside(phase.mask, true);
      return true;
    }

    /** Deactivation leaves the mask at the level it took off, so that level cannot be activated again right away. */
    method Reactivate(priority: nat, running: nat) returns (ok: bool)
      requires Valid() && IsLevel(priority, levelBits)
      modifies this
      ensures ok <==> && priority < running && IsValidLevel(PriToIdx(priority, levelBits)) && priority < old(initMask)
                      && |old(stack)| == 1 && PriToIdx(priority, levelBits) == old(stack)[0]
      ensures ok ==> Valid() && stack == old(stack)
    {
      hide IsLevel, PriToIdx, Decreasing, Encode, Strict;
      ok := DeactivatePriority(priority, running);
      if ok {
        ok := ActivatePriority(priority, running);
      }
    }

    /** Two levels are active; the stricter one is deactivated and cannot be activated again. */
    static method ReactivationPanics() returns (pe: Pe, ok: bool)
      ensures fresh(pe) && !ok
    {
      hide And, Pow2, PriToIdx, IdxToPri, IsLevel, Pe.Valid;
      LevelValues();
      pe := new Pe(1, [true, true], 0xF0);
      ok := pe.ActivatePriority(0x40, 0xFF);
      assert ok;
      ok := pe.ActivatePriority(0, 0xFF);
      assert ok && pe.stack == [1, 0];
      ok := pe.Reactivate(0, 0xFF);
    }

    constructor (levelBits: nat, levels: seq<bool>, mask: nat)
      requires levelBits <= 7 && |levels| <= 32 && mask < 0x100
      ensures Valid() && stack == [] && phase == Outside && this.mask == mask
      ensures this.levelBits == levelBits && this.levels == levels
    {
      this.levelBits, this.levels, this.mask := levelBits, levels, mask;
      activeBits, initMask, nsMask := 0, 0, 0;
      stack, phase := [], Outside;
    }

    method Step(op: Op) returns (ok: bool)
      requires Valid() && (op.Activate? || op.Deactivate? ==> IsLevel(op.priority, levelBits))
      modifies this
      ensures ok ==> Valid() && (phase.Outside? <==> old(phase).Outside?) && (phase.Inside? ==> phase.mask == old(phase).mask)
      ensures ok && !op.Allow? ==> Base() == old(Base()) && nsMask == old(nsMask) && phase == old(phase)
    {
      hide IsLevel, Valid, PriToIdx;
      match op {
        case Activate(priority, running) => ok := ActivatePriority(priority, running);
        case Deactivate(priority, running) => ok := DeactivatePriority(priority, running);
        case Allow => ok := AllowNsPreemption();
      }
    }

    /** Any run of activations and deactivations that empties the stack again leaves the mask it found. */
    method Balanced(ops: seq<Op>) returns (ok: bool)
      requires Valid() && stack == []
      requires forall op :: op in ops ==> !op.Allow? && IsLevel(op.priority, levelBits)
      modifies this
      ensures ok ==> Valid()
      ensures ok && stack == [] ==> mask == old(mask)
    {
      hide IsLevel, Valid;
      for i := 0 to |ops|
        invariant Valid() && Base() == old(Base())
      {
        assert ops[i] in ops;
        ok := Step(ops[i]);
        if !ok { return; }
      }
      return true;
    }

    /** Into the secure world and back: whatever levels were active meanwhile, the normal world finds its mask again. */
    method Excursion(out: nat, ops: seq<Op>, back: nat) returns (ok: bool)
      requires Valid() && phase.Outside? && stack == [] && 0x80 <= out < 0x100 && 0x80 <= back < 0x100
      requires forall op :: op in ops ==> op.Activate? || op.Deactivate? ==> IsLevel(op.priority, levelBits)
      modifies this
      ensures ok ==> Valid()
      ensures ok && stack == [] ==> mask == old(mask) && nsMask == 0 && phase.Outside?
    {
      hide IsLevel, Valid;
      ok := ExitedNormalWorld(out);
      if !ok { return; }
      for i := 0 to |ops|
        invariant Valid() && phase.Inside? && phase.mask == old(mask)
      {
        assert ops[i] in ops;
        ok := Step(ops[i]);
        if !ok { return; }
      }
      ok := EnteringNormalWorld(back);
    }
  }

  lemma StrictTop(mask: nat, s: seq<nat>, bits: nat)
    requires bits <= 7 && Strict(mask, s, bits) && s != []
    ensures mask <= IdxToPri(s[|s| - 1], bits)
  {
  }

  lemma StrictNone(mask: nat, bits: nat)
    requires bits <= 7
    ensures Strict(mask, [], bits)
  {
  }

  /**
   The controller signals an interrupt whose priority is below the mask. While the secure world runs and has not allowed
   preemption, no interrupt of the normal world is signalled, whatever levels are active; with none active each secure
   one is.
   */
  lemma NormalKeptOut(pe: Pe, priority: nat)
    requires pe.Valid() && pe.phase.Inside? && !pe.phase.allowed && priority < 0x100
    ensures !IsSecure(priority) ==> priority >= pe.mask
    ensures pe.stack == [] && IsSecure(priority) ==> priority < pe.mask
  {
    hide And, Pow2, IdxToPri, Decreasing, Encode, IsSecure;
    SecureHalf(priority);
    if pe.stack != [] {
      var top := pe.stack[|pe.stack| - 1];
      StrictTop(pe.mask, pe.stack, pe.levelBits);
      LevelPriority(top, pe.levelBits);
    }
  }
}
