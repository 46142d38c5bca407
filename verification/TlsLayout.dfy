/**
 Static TLS layout: where load_library and startup put each module's thread-local block relative to
 the thread pointer, in both layouts a machine may use, and the alignment that all of them share.
 */
module TlsLayout {
  import opened Words

  /** Above: blocks follow the thread pointer. Below: blocks precede it, at negated offsets. */
  datatype Variant = Above | Below

  datatype Module = Module(image: Word, size: Word, align: Word, offset: Word)

  /** The bytes of a block as distances from the thread pointer. */
  function First(v: Variant, m: Module): int { if v.Above? then m.offset else m.offset - m.size }

  function Past(v: Variant, m: Module): int { if v.Above? then m.offset + m.size else m.offset }

  /** In a thread whose pointer is a multiple of the alignment, the block has the residue of its image. */
  predicate Congruent(v: Variant, m: Module)
    requires m.align > 0
  {
    if v.Above? then m.offset % m.align == m.image % m.align
    else (m.offset + m.image) % m.align == 0
  }

  /** Where the next block goes: the new offset field, then the end of the space used so far. */
  function Place(v: Variant, used: Word, image: Word, size: Word, align: Word): (Word, Word)
    requires align > 0 && used + size + align <= WORD
  {
    match v
    case Above =>
      var offset := used + And(Add(Neg(used), image), align - 1);
      (offset, offset + size)
    case Below =>
      var top: Word := used + size + align - 1;
      var offset := top - And(Add(top, image), align - 1);
      (offset, offset)
  }

  /** A power of two divides the size of the address space, so wrapping does not change residues. */
  lemma ModOfWord(z: int, a: Word)
    requires IsPow2(a)
    ensures z % WORD % a == z % a
  {
    hide Pow2, IsPow2;
    var k := Log2(a);
    WordIsPow2();
    Pow2Adds(k, 64 - k);
    ModOfMultiple(z, a, Pow2(64 - k));
  }

  lemma ModOfMultiple(z: int, a: nat, c: nat)
    requires a > 0 && c > 0 && a * c > 0
    ensures z % (a * c) % a == z % a
  {
    var q, r := z / (a * c), z % (a * c);
    var p, m := r / a, r % a;
    assert z == (a * c) * q + r && r == a * p + m;
    Reassociate(a, c, q);
    Distribute(a, c * q, -p);
    ModUnique(z, a, c * q + p, m);
  }

  lemma Reassociate(a: int, b: int, c: int)
    ensures a * b * c == a * (b * c)
  {
  }

  lemma RoundUpTo(used: int, image: int, a: nat)
    requires a > 0
    ensures (used + (image - used) % a) % a == image % a
  {
    var q, r := (image - used) / a, (image - used) % a;
    var p, m := image / a, image % a;
    assert image - used == a * q + r && image == a * p + m;
    Distribute(a, p, q);
    ModUnique(used + r, a, p - q, m);
  }

  lemma RoundDownTo(x: int, a: nat)
    requires a > 0
    ensures (x - x % a) % a == 0
  {
    var q := x / a;
    assert x == a * q + x % a;
    ModUnique(x - x % a, a, q, 0);
  }

  lemma AbovePadding(used: Word, image: Word, align: Word)
    requires IsPow2(align)
    ensures var r := And(Add(Neg(used), image), align - 1);
      0 <= r < align && (used + r) % align == image % align
  {
    hide And, Pow2, IsPow2;
    MaskIsMod(Add(Neg(used), image), align);
    NegAdd(used, image);
    ModOfWord(image - used, align);
    RoundUpTo(used, image, align);
  }

  lemma NegAdd(x: Word, y: Word)
    ensures Add(Neg(x), y) == (y - x) % WORD
  {
  }

  lemma BelowPadding(top: Word, image: Word, align: Word)
    requires IsPow2(align)
    ensures var r := And(Add(top, image), align - 1);
      0 <= r < align && (top + image - r) % align == 0
  {
    hide And, IsPow2;
    var x := top + image;
    MaskIsMod(Add(top, image), align);
    ModOfWord(x, align);
    assert And(Add(top, image), align - 1) == x % align;
    RoundDownTo(x, align);
  }

  lemma AboveIsSound(used: Word, image: Word, size: Word, align: Word)
    requires IsPow2(align) && used + size + align <= WORD
    ensures var (offset, past) := Place(Above, used, image, size, align);
      var m := Module(image, size, align, offset);
      used <= First(Above, m) < used + align && Past(Above, m) == past == First(Above, m) + size && Congruent(Above, m)
  {
    hide And, IsPow2;
    AbovePadding(used, image, align);
  }

  lemma BelowIsSound(used: Word, image: Word, size: Word, align: Word)
    requires IsPow2(align) && used + size + align <= WORD
    ensures var (offset, past) := Place(Below, used, image, size, align);
      var m := Module(image, size, align, offset);
      used <= First(Below, m) < used + align && Past(Below, m) == past == First(Below, m) + size && Congruent(Below, m)
  {
    assert align > 0;
    hide And, IsPow2;
    var top := used + size + align - 1;
    BelowPadding(top, image, align);
    var r := And(Add(top, image), align - 1);
    assert top - r + image == top + image - r;
    hide Add;
  }

  /** The block fits behind what is used, wastes less than its alignment and has the right residue. */
  lemma PlaceIsSound(v: Variant, used: Word, image: Word, size: Word, align: Word)
    requires IsPow2(align) && used + size + align <= WORD
    ensures var (offset, past) := Place(v, used, image, size, align);
      var m := Module(image, size, align, offset);
      used <= First(v, m) < used + align && Past(v, m) == past == First(v, m) + size && Congruent(v, m)
  {
    hide And, Congruent, Place, IsPow2;
    if v.Above? {
      AboveIsSound(used, image, size, align);
    } else {
      BelowIsSound(used, image, size, align);
    }
  }

  /** x rounded up to a multiple of the power of two y. */
  function Align(x: Word, y: Word): Word
    requires x + y <= WORD && y > 0
  {
    And(x + y - 1, Neg(y))
  }

  lemma AlignRoundsUp(x: Word, y: Word)
    requires IsPow2(y) && x + y <= WORD
    ensures x <= Align(x, y) < x + y && Align(x, y) % y == 0
  {
    assert y > 0;
    hide And, IsPow2;
    NegMaskRoundsDown(x + y - 1, y);
    RoundDownTo(x + y - 1, y);
  }

  /** Below the thread pointer the main program is placed by a formula of its own. */
  function PlaceFirstBelow(image: Word, size: Word, align: Word): int
    requires align > 0
  {
    size + And(Neg(Add(image, size)), align - 1)
  }

  lemma FirstBelowIsSound(image: Word, size: Word, align: Word)
    requires IsPow2(align)
    ensures var offset := PlaceFirstBelow(image, size, align);
      size <= offset < size + align && (offset + image) % align == 0
  {
    assert align > 0;
    hide And, Pow2, IsPow2;
    MaskIsMod(Neg(Add(image, size)), align);
    NegOfSum(image, size);
    ModOfWord(-(image + size), align);
    RoundUpTo(image + size, 0, align);
  }

  lemma NegOfSum(x: Word, y: Word)
    ensures Neg(Add(x, y)) == (-(x + y)) % WORD
  {
  }

  lemma CongruentBelow(m: Module)
    requires m.align > 0
    ensures Congruent(Below, m) <==> (m.offset + m.image) % m.align == 0
  {
  }

  /** Blocks in load order: apart, inside the space used, congruent, and aligned to a divisor of align. */
  ghost predicate Sound(v: Variant, gap: Word, modules: seq<Module>, used: Word, align: Word) {
    && IsPow2(align) && gap <= used
    && (forall i :: 0 <= i < |modules| ==>
          IsPow2(modules[i].align) && Congruent(v, modules[i]) && align % modules[i].align == 0 && modules[i].align <= align)
    && (forall i :: 0 <= i < |modules| ==> gap <= First(v, modules[i]) <= Past(v, modules[i]) <= used)
    && (forall i, j :: 0 <= i < j < |modules| ==> Past(v, modules[i]) <= First(v, modules[j]))
  }

  lemma SoundGrows(v: Variant, gap: Word, modules: seq<Module>, used: Word, align: Word, m: Module, used': Word)
    requires Sound(v, gap, modules, used, align) && IsPow2(m.align) && Congruent(v, m)
    requires used <= First(v, m) <= Past(v, m) == used'
    ensures Sound(v, gap, modules + [m], used', MaxP2(align, m.align))
    ensures MaxP2(align, m.align) == if align < m.align then m.align else align
  {
    MaxP2IsMax(align, m.align);
    var align' := MaxP2(align, m.align);
    hide MaxP2, IsPow2, Congruent;
    forall i | 0 <= i < |modules| ensures align' % modules[i].align == 0 {
      Pow2Divides(modules[i].align, align');
    }
    Pow2Divides(m.align, align');
  }

  /** The linker's bookkeeping: tls_offset, tls_align and the chain of modules. */
  class TlsState {
    const variant: Variant
    const gap: Word
    var tlsOffset: Word
    var tlsAlign: Word
    var tlsCnt: nat
    ghost var modules: seq<Module>

    ghost predicate Valid()
      reads this
    {
      tlsCnt == |modules| && Sound(variant, gap, modules, tlsOffset, tlsAlign)
    }

    /** Startup without a main-program TLS block. */
    constructor (v: Variant, gapAboveTp: Word, minAlign: Word)
      requires IsPow2(minAlign)
      ensures Valid() && variant == v && modules == [] && tlsAlign == minAlign
      ensures tlsOffset == gap == if v.Above? then gapAboveTp else 0
    {
      variant := v;
      gap := if v.Above? then gapAboveTp else 0;
      tlsOffset := if v.Above? then gapAboveTp else 0;
      tlsAlign := minAlign;
      tlsCnt := 0;
      modules := [];
    }

    /** Startup places the block of the main program. */
    method AppendApp(image: Word, size: Word, align: Word) returns (offset: Word)
      requires Valid() && modules == [] && tlsOffset == gap && (variant.Below? ==> gap == 0)
      requires IsPow2(align) && tlsOffset + size + align <= WORD
      modifies this
      ensures Valid() && modules == [Module(image, size, align, offset)]
      ensures tlsAlign == (if old(tlsAlign) < align then align else old(tlsAlign))
      ensures gap + size <= tlsOffset < gap + size + align
    {
      hide And, IsPow2, Sound, MaxP2, Congruent;
      if variant.Above? {
        offset := Append(image, size, align);
        assert [] + modules == modules;
      } else {
        FirstBelowIsSound(image, size, align);
        offset := size + And(Neg(Add(image, size)), align - 1);
        ghost var m := Module(image, size, align, offset);
        assert Congruent(variant, m) by { CongruentBelow(m); }
        SoundGrows(variant, gap, modules, tlsOffset, tlsAlign, m, offset);
        assert modules + [m] == [m];
        tlsCnt := 1;
        tlsOffset := offset;
        tlsAlign := MaxP2(tlsAlign, align);
        modules := [m];
      }
    }

    /** load_library appends the block of a library. */
    method Append(image: Word, size: Word, align: Word) returns (offset: Word)
      requires Valid() && IsPow2(align) && tlsOffset + size + align <= WORD
      modifies this
      ensures Valid() && modules == old(modules) + [Module(image, size, align, offset)]
      ensures tlsAlign == (if old(tlsAlign) < align then align else old(tlsAlign))
      ensures old(tlsOffset) + size <= tlsOffset < old(tlsOffset) + size + align
    {
      hide And, IsPow2, Sound, MaxP2, Congruent;
      PlaceIsSound(variant, tlsOffset, image, size, align);
      ghost var used := tlsOffset;
      ghost var place := Place(variant, tlsOffset, image, size, align);
      tlsCnt := tlsCnt + 1;
      SoundGrows(variant, gap, modules, used, tlsAlign, Module(image, size, align, place.0), place.1);
      tlsAlign := MaxP2(tlsAlign, align);
      if variant.Above? {
        offset := tlsOffset + And(Add(Neg(tlsOffset), image), align - 1);
        tlsOffset := offset + size;
      } else {
        var top: Word := tlsOffset + size + align - 1;
        tlsOffset := top - And(Add(top, image), align - 1);
        offset := tlsOffset;
      }
      modules := modules + [Module(image, size, align, offset)];
    }

    /** update_tls_size: room for the DTV, the blocks, the thread descriptor and two alignments. */
    method TlsSize(threadDescriptor: Word) returns (size: Word)
      requires Valid() && 8 * (1 + tlsCnt) + tlsOffset + threadDescriptor + 3 * tlsAlign <= WORD
      ensures size % tlsAlign == 0 && forall i :: 0 <= i < |modules| ==> size % modules[i].align == 0
      ensures size >= 8 * (1 + tlsCnt) + tlsOffset + threadDescriptor + 2 * tlsAlign
      ensures size < 8 * (1 + tlsCnt) + tlsOffset + threadDescriptor + 3 * tlsAlign
    {
      var sum: Word := (1 + tlsCnt) * 8 + tlsOffset + threadDescriptor + tlsAlign * 2;
      AlignRoundsUp(sum, tlsAlign);
      size := Align(sum, tlsAlign);
      forall i | 0 <= i < |modules| ensures size % modules[i].align == 0 {
        DividesTransitively(size, tlsAlign, modules[i].align);
      }
    }
  }

  lemma DividesTransitively(x: nat, b: nat, a: nat)
    requires a > 0 && b > 0 && x % b == 0 && b % a == 0
    ensures x % a == 0
  {
    var p, q := x / b, b / a;
    assert x == b * p && b == a * q;
    Reassociate(a, q, p);
    ModUnique(x, a, q * p, 0);
  }
}
