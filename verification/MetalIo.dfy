/**
 I/O regions: virtual and physical addresses of the offsets into a region, and the way back. All
 addresses and offsets are 64-bit words.
 */
module MetalIo {
  import opened Basics
  import opened Words

  /** METAL_BAD_PHYS, METAL_BAD_OFFSET and METAL_BAD_VA */
  const BAD: Word := WORD - 1

  /** A region without operations of its own. */
  datatype Region = Region(virt: Word, physmap: Option<seq<Word>>, size: Word, shift: nat, mask: Word)
  {
    /** A single page, whatever the size. */
    predicate Single() { shift >= 64 }

    /** The page of an offset. */
    function Page(offset: Word): nat {
      if shift >= 64 then 0 else High(offset, shift)
    }

    /** The mask goes with the shift, and the table has a frame for every page of the region. */
    ghost predicate Valid() {
      && mask == (if shift >= 64 then WORD - 1 else Pow2(shift) - 1)
      && (physmap.Some? ==> forall offset: Word :: offset < size ==> Page(offset) < |physmap.value|)
    }

    /** metal_io_phys */
    function Phys(offset: Word): Word
      requires Valid()
    {
      if physmap.Some? && offset < size then Add(physmap.value[Page(offset)], And(offset, mask)) else BAD
    }

    /** metal_io_virt; 0 is the null pointer */
    function Virt(offset: Word): Word {
      if virt != BAD && offset < size then Add(virt, offset) else 0
    }

    /** metal_io_virt_to_offset */
    function VirtToOffset(address: Word): Word {
      var offset := Sub(address, virt);
      if offset < size then offset else BAD
    }

    /** Frames start at page boundaries, unless there is just one. */
    ghost predicate Aligned() {
      physmap.Some? && !Single() ==> forall i :: 0 <= i < |physmap.value| ==> And(physmap.value[i], mask) == 0
    }

    /** offset is where phys is mapped. */
    ghost predicate Maps(offset: Word, phys: Word)
      requires Valid()
    {
      physmap.Some? && offset < size && Phys(offset) == phys
    }

    /** The offsets that the search for phys visits, those at the same place of their page. */
    ghost predicate InStep(phys: Word, offset: Word) {
      Single() || Low(offset, shift) == Low(phys, shift)
    }

    /** The search ends: it finds something, or leaves the region before the offset wraps. */
    ghost predicate Ends(phys: Word)
      requires Valid()
    {
      || Single() || size <= WORD - (mask + 1) + And(phys, mask)
      || exists offset: Word :: InStep(phys, offset) && Maps(offset, phys)
    }
  }

  lemma SmallPage(shift: nat)
    requires shift < 64
    ensures Pow2(shift) < WORD && WORD == Pow2(shift) * Pow2(64 - shift)
  {
    hide Pow2;
    WordIsPow2();
    Pow2Grows(shift, 64);
    Pow2Adds(shift, 64 - shift);
  }

  /** metal_io_init */
  function Init(virt: Word, physmap: Option<seq<Word>>, size: Word, shift: nat): (r: Region)
    requires physmap.Some? && size > 0 ==> |physmap.value| > (if shift >= 64 then 0 else High(size - 1, shift))
    ensures r.Valid()
  {
    hide Pow2, High;
    if shift < 64 then
      SmallPage(shift);
      assert forall offset: Word :: offset < size ==> High(offset, shift) <= High(size - 1, shift) by {
        forall offset: Word | offset < size ensures High(offset, shift) <= High(size - 1, shift) {
          HighMonotone(offset, size - 1, shift);
        }
      }
      Region(virt, physmap, size, shift, Pow2(shift) - 1)
    else
      Region(virt, physmap, size, shift, WORD - 1)
  }

  lemma {:induction false} HighMonotone(a: nat, b: nat, k: nat)
    requires a <= b
    ensures High(a, k) <= High(b, k)
  {
    if k > 0 { HighMonotone(a / 2, b / 2, k - 1); }
  }

  /** The page and the place in it, as masking gives them. */
  lemma Masked(x: Word, k: nat)
    requires k < 64
    ensures And(x, Pow2(k) - 1) == Low(x, k) < Pow2(k) && x == Pow2(k) * High(x, k) + Low(x, k)
  {
    hide And, Low, High, Pow2;
    AndMask(x, k);
    Split(x, k);
  }

  lemma MaskAll(x: Word)
    ensures And(x, WORD - 1) == x
  {
    hide And, Low, Pow2;
    WordIsPow2();
    AndMask(x, 64);
    LowOfSmall(x, 64);
  }

  lemma LowOf(k: nat, h: int, l: nat)
    requires l < Pow2(k) && Pow2(k) * h + l >= 0
    ensures Low(Pow2(k) * h + l, k) == l
  {
    hide Low, Pow2;
    LowIsMod(Pow2(k) * h + l, k);
    ModUnique(Pow2(k) * h + l, Pow2(k), h, l);
  }

  lemma PageFits(shift: nat)
    requires shift < 64
    ensures Pow2(shift) < WORD
  {
    SmallPage(shift);
  }

  lemma MaskIsLow(x: Word, k: nat)
    requires k < 64
    ensures And(x, Pow2(k) - 1) == Low(x, k) < Pow2(k)
  {
    hide And, Low, High, Pow2;
    Masked(x, k);
  }

  lemma LowStep(x: nat, k: nat)
    ensures Low(x + Pow2(k), k) == Low(x, k)
  {
    hide Low, Pow2, High;
    Split(x, k);
    Distribute(Pow2(k), High(x, k) + 1, 1);
    LowOf(k, High(x, k) + 1, Low(x, k));
  }

  /** Two numbers at the same place of their pages, less than a page apart, are one. */
  lemma SamePlace(a: nat, b: nat, k: nat)
    requires Low(a, k) == Low(b, k) && a <= b < a + Pow2(k)
    ensures a == b
  {
    hide Low, Pow2, High;
    Split(a, k);
    Split(b, k);
    Distribute(Pow2(k), High(b, k), High(a, k));
    if High(b, k) > High(a, k) {
      AtLeastOnce(Pow2(k), High(b, k) - High(a, k));
    } else if High(b, k) < High(a, k) {
      Distribute(Pow2(k), High(a, k), High(b, k));
      AtLeastOnce(Pow2(k), High(a, k) - High(b, k));
    }
  }

  /** The last visit before the offset wraps. */
  lemma LastPlace(x: Word, k: nat)
    requires k < 64 && x + Pow2(k) >= WORD
    ensures x == WORD - Pow2(k) + Low(x, k)
  {
    hide Low, Pow2, High;
    SmallPage(k);
    Split(x, k);
    var top := WORD - Pow2(k) + Low(x, k);
    Distribute(Pow2(k), Pow2(64 - k), 1);
    LowOf(k, Pow2(64 - k) - 1, Low(x, k));
    if x <= top { SamePlace(x, top, k); } else { SamePlace(top, x, k); }
  }

  /** A frame at a page boundary has room for a page, and keeps the place in it. */
  lemma FrameRoom(frame: Word, k: nat, l: nat)
    requires k < 64 && And(frame, Pow2(k) - 1) == 0 && l < Pow2(k)
    ensures frame + l < WORD && Low(frame + l, k) == l
  {
    hide And, Low, Pow2, High;
    SmallPage(k);
    Masked(frame, k);
    Distribute(Pow2(k), Pow2(64 - k), High(frame, k));
    if High(frame, k) >= Pow2(64 - k) {
      Distribute(Pow2(k), High(frame, k), Pow2(64 - k));
      AtLeastNone(Pow2(k), High(frame, k) - Pow2(64 - k));
    }
    AtLeastOnce(Pow2(k), Pow2(64 - k) - High(frame, k));
    LowOf(k, High(frame, k), l);
  }

  lemma AtLeastNone(m: nat, t: nat)
    ensures m * t >= 0
  {
  }

  /** A physical address, with an aligned frame. */
  lemma PhysIs(io: Region, offset: Word)
    requires io.Valid() && io.Aligned() && !io.Single() && io.physmap.Some? && offset < io.size
    ensures io.Page(offset) < |io.physmap.value|
    ensures io.Phys(offset) == io.physmap.value[io.Page(offset)] + Low(offset, io.shift)
    ensures Low(io.Phys(offset), io.shift) == Low(offset, io.shift)
  {
    hide And, Low, Pow2, High;
    Masked(offset, io.shift);
    FrameRoom(io.physmap.value[io.Page(offset)], io.shift, Low(offset, io.shift));
  }

  /** With aligned frames, whatever maps to phys is visited. */
  lemma MapsInStep(io: Region, offset: Word, phys: Word)
    requires io.Valid() && io.Aligned() && io.Maps(offset, phys)
    ensures io.InStep(phys, offset)
  {
    hide And, Low, Pow2, High, Region.Phys;
    if !io.Single() { PhysIs(io, offset); }
  }

  /** In a single page only one offset maps to phys. */
  lemma SingleMaps(io: Region, offset: Word, phys: Word)
    requires io.Valid() && io.Single() && io.physmap.Some? && |io.physmap.value| > 0
    ensures io.Maps(offset, phys) <==> offset < io.size && offset == Sub(phys, io.physmap.value[0])
  {
    hide And;
    MaskAll(offset);
  }

  /** No offset below `bound` that the search visits maps to phys. */
  ghost predicate NoneBelow(io: Region, phys: Word, bound: int)
    requires io.Valid()
  {
    forall offset: Word :: offset < bound && io.InStep(phys, offset) ==> !io.Maps(offset, phys)
  }

  lemma NoneAtFirst(io: Region, phys: Word, first: Word)
    requires io.Valid() && !io.Single() && first == And(phys, io.mask)
    ensures io.InStep(phys, first) && NoneBelow(io, phys, first)
  {
    hide And, Pow2, High, Low;
    Masked(phys, io.shift);
    LowOfSmall(first, io.shift);
    forall offset: Word ensures offset < first ==> !io.InStep(phys, offset) {
      if offset < first { LowOfSmall(offset, io.shift); }
    }
  }

  lemma NoneBelowNext(io: Region, phys: Word, offset: Word)
    requires io.Valid() && !io.Single() && io.InStep(phys, offset) && NoneBelow(io, phys, offset) && !io.Maps(offset, phys)
    ensures NoneBelow(io, phys, offset + io.mask + 1)
  {
    hide And, Pow2, High, Low, Region.Phys, Region.Maps;
    forall other: Word | other < offset + io.mask + 1 && io.InStep(phys, other) ensures !io.Maps(other, phys) {
      if other >= offset { SamePlace(offset, other, io.shift); }
    }
  }

  /** A step goes to the next offset to be visited, or wraps to the first. */
  lemma NextStep(io: Region, phys: Word, offset: Word)
    requires io.Valid() && !io.Single() && io.InStep(phys, offset)
    ensures var next := offset + io.mask + 1;
      if next < WORD then Add(offset, Add(io.mask, 1)) == next && io.InStep(phys, next)
      else Add(offset, Add(io.mask, 1)) == And(phys, io.mask) && offset == WORD - (io.mask + 1) + And(phys, io.mask)
  {
    hide And, Pow2, High, Low, Region.Phys;
    var p := Pow2(io.shift);
    PageFits(io.shift);
    assert Add(io.mask, 1) == p == io.mask + 1;
    LowStep(offset, io.shift);
    MaskIsLow(phys, io.shift);
    if offset + p >= WORD { LastPlace(offset, io.shift); }
  }

  /** Where the search ends, the offset does not wrap. */
  lemma StaysBelow(io: Region, phys: Word, offset: Word)
    requires io.Valid() && !io.Single() && io.Ends(phys) && (offset < io.size || offset == And(phys, io.mask))
    requires io.InStep(phys, offset) && NoneBelow(io, phys, offset) && !io.Maps(offset, phys)
    ensures offset + io.mask + 1 < WORD
  {
    hide And, Pow2, High, Low, Region.Phys, Region.Maps;
    NoneBelowNext(io, phys, offset);
    NextStep(io, phys, offset);
    Masked(phys, io.shift);
    AtLeastTwice(io.shift);
  }

  lemma AtLeastTwice(k: nat)
    requires k < 64
    ensures 2 * Pow2(k) <= WORD
  {
    hide Pow2;
    WordIsPow2();
    Pow2Grows(k, 64);
  }

  lemma MaskIsAll(io: Region)
    requires io.Valid()
    ensures io.mask == WORD - 1 <==> io.Single()
  {
    if io.shift < 64 { AtLeastTwice(io.shift); }
  }

  lemma NoneAtAll(io: Region, phys: Word, bound: int)
    requires io.Valid() && NoneBelow(io, phys, bound) && bound >= io.size
    ensures NoneBelow(io, phys, WORD)
  {
  }

  lemma Found(io: Region, phys: Word, offset: Word)
    requires io.Valid() && phys != BAD
    ensures io.Maps(offset, phys) <==> io.Phys(offset) == phys
    ensures io.Maps(offset, phys) ==> offset < io.size < WORD
  {
  }

  lemma NotFound(io: Region, phys: Word, offset: Word)
    requires io.Valid() && io.Phys(offset) != phys
    ensures !io.Maps(offset, phys)
  {
  }

  /** In a single page the first offset visited is the only one that can map to phys. */
  lemma SingleSearch(io: Region, phys: Word, offset: Word)
    requires io.Valid() && io.Single() && io.physmap.Some? && |io.physmap.value| > 0
    requires offset == Sub(phys, io.physmap.value[0])
    ensures io.InStep(phys, offset) && NoneBelow(io, phys, offset) && Add(offset, Add(io.mask, 1)) == offset
    ensures offset < io.size ==> io.Maps(offset, phys)
    ensures offset >= io.size ==> NoneBelow(io, phys, WORD)
  {
    hide And;
    forall o: Word ensures io.Maps(o, phys) <==> o < io.size && o == offset { SingleMaps(io, o, phys); }
  }

  /** metal_io_phys_to_offset: the least visited offset that maps to phys. */
  method PhysToOffset(io: Region, phys: Word) returns (r: Word)
    requires io.Valid() && io.Ends(phys) && (io.Single() ==> io.physmap.Some? && |io.physmap.value| > 0)
    ensures phys != BAD && r != BAD ==> io.Maps(r, phys) && io.InStep(phys, r) && NoneBelow(io, phys, r)
    ensures phys != BAD && r == BAD ==> NoneBelow(io, phys, WORD)
  {
    hide And, Pow2, High, Low, NoneBelow, Region.Phys, Region.Maps, Region.InStep, Region.Ends, Region.Valid;
    MaskIsAll(io);
    var offset: Word := if io.mask == WORD - 1 then Sub(phys, io.physmap.value[0]) else And(phys, io.mask);
    ghost var first := offset;
    if io.Single() { SingleSearch(io, phys, offset); } else { NoneAtFirst(io, phys, offset); }
    while true
      invariant io.InStep(phys, offset) && NoneBelow(io, phys, offset)
      invariant offset < io.size || offset == first
      invariant io.Single() ==> offset == first
      decreases WORD - offset
    {
      if phys != BAD { Found(io, phys, offset); }
      if io.Phys(offset) == phys {
        return offset;
      }
      NotFound(io, phys, offset);
      if !io.Single() {
        NoneBelowNext(io, phys, offset);
        NextStep(io, phys, offset);
        StaysBelow(io, phys, offset);
      }
      offset := Add(offset, Add(io.mask, 1));
      if !(offset < io.size) {
        break;
      }
    }
    if !io.Single() { NoneAtAll(io, phys, offset); }
    return BAD;
  }

  /** With aligned frames the search finds the least offset that maps to phys, or says that there is none. */
  method Search(io: Region, phys: Word) returns (r: Word)
    requires io.Valid() && io.Ends(phys) && (io.Single() ==> io.physmap.Some? && |io.physmap.value| > 0)
    requires phys != BAD && io.Aligned()
    ensures r == BAD <==> forall offset: Word :: !io.Maps(offset, phys)
    ensures r != BAD ==> io.Maps(r, phys) && forall offset: Word :: offset < r ==> !io.Maps(offset, phys)
  {
    hide And, Pow2, High, Low, Region.Phys, Region.Maps, Region.InStep, Region.Ends, Region.Valid, Region.Aligned;
    r := PhysToOffset(io, phys);
    forall offset: Word | io.Maps(offset, phys) ensures io.InStep(phys, offset) { MapsInStep(io, offset, phys); }
    if r != BAD { assert io.Maps(r, phys); }
  }

  /** Each physical address belongs to one offset. */
  ghost predicate Injective(io: Region)
    requires io.Valid()
  {
    forall a: Word, b: Word :: a < io.size && b < io.size && io.Phys(a) == io.Phys(b) ==> a == b
  }

  /** Distinct aligned frames, or a single page, give every offset a physical address of its own. */
  lemma DistinctFrames(io: Region)
    requires io.Valid() && io.Aligned() && io.physmap.Some?
    requires !io.Single() ==> forall i, j :: 0 <= i < j < |io.physmap.value| ==> io.physmap.value[i] != io.physmap.value[j]
    ensures Injective(io)
  {
    hide And, Pow2, High, Low, Region.Phys;
    forall a: Word, b: Word | a < io.size && b < io.size && io.Phys(a) == io.Phys(b) ensures a == b {
      if io.Single() {
        assert io.Page(a) < |io.physmap.value|;
        SingleMaps(io, a, io.Phys(a));
        SingleMaps(io, b, io.Phys(a));
      } else {
        PhysIs(io, a);
        PhysIs(io, b);
        assert io.Page(a) == io.Page(b);
        Masked(a, io.shift);
        Masked(b, io.shift);
      }
    }
  }

  /** The search undoes the translation. */
  method ThereAndBack(io: Region, offset: Word) returns (r: Word)
    requires io.Valid() && io.Aligned() && io.physmap.Some? && offset < io.size && io.Phys(offset) != BAD && Injective(io)
    ensures r == offset
  {
    hide And, Pow2, High, Low;
    var phys := io.Phys(offset);
    MapsInStep(io, offset, phys);
    r := Search(io, phys);
    assert io.Maps(offset, phys);
  }

  /** A page whose frame is not aligned is not found again: its first offset is not among those visited. */
  lemma UnalignedIsMissed(io: Region, offset: Word)
    requires io.Valid() && !io.Single() && io.physmap.Some? && offset < io.size && And(offset, io.mask) == 0
    requires And(io.physmap.value[io.Page(offset)], io.mask) != 0
    ensures io.Maps(offset, io.Phys(offset)) && !io.InStep(io.Phys(offset), offset)
  {
    hide And, Pow2, High, Low;
    var frame := io.physmap.value[io.Page(offset)];
    Masked(offset, io.shift);
    Masked(frame, io.shift);
    assert io.Phys(offset) == frame;
  }

  /** The offset at the k-th visit of a search that has not ended. */
  ghost function Visited(io: Region, phys: Word, k: nat): Word
    requires io.Valid()
  {
    if k == 0 then And(phys, io.mask) else Add(Visited(io, phys, k - 1), Add(io.mask, 1))
  }

  /** Otherwise every visit is to an offset inside the region that does not map to phys: the search goes on for ever. */
  lemma {:induction false} NeverEnds(io: Region, phys: Word, k: nat)
    requires io.Valid() && !io.Ends(phys)
    ensures Visited(io, phys, k) < io.size && io.Phys(Visited(io, phys, k)) != phys && io.InStep(phys, Visited(io, phys, k))
  {
    hide And, Pow2, High, Low, Region.Phys;
    BadEnds(io);
    var offset := Visited(io, phys, k);
    Found(io, phys, offset);
    if k == 0 {
      NoneAtFirst(io, phys, offset);
    } else {
      var was := Visited(io, phys, k - 1);
      NeverEnds(io, phys, k - 1);
      NoneMaps(io, phys, was);
      NextStep(io, phys, was);
      NoneAtFirst(io, phys, And(phys, io.mask));
      if was + io.mask + 1 < WORD { BelowTop(io, phys, offset); }
    }
  }

  /** METAL_BAD_PHYS is never searched for ever. */
  lemma BadEnds(io: Region)
    requires io.Valid()
    ensures io.Ends(BAD)
  {
    hide And, Pow2, High, Low;
    if !io.Single() {
      Masked(BAD, io.shift);
      LastPlace(BAD, io.shift);
    }
  }

  /** Such a search: a region of all but the last byte, in pages of 4096, without a table, and address 0. */
  lemma EndlessSearch(k: nat)
    ensures var io := Region(0, None, WORD - 1, 12, 4095);
      io.Valid() && !io.Ends(0) && Visited(io, 0, k) < io.size && io.Phys(Visited(io, 0, k)) != 0
  {
    assert Pow2(12) == 4096 by { assert Pow2(6) == 64; Pow2Adds(6, 6); }
    var io := Region(0, None, WORD - 1, 12, 4095);
    assert io.Valid() && !io.Ends(0);
    NeverEnds(io, 0, k);
  }

  lemma NoneMaps(io: Region, phys: Word, bound: int)
    requires io.Valid() && !io.Ends(phys)
    ensures NoneBelow(io, phys, bound)
  {
  }

  /** An offset that is visited is at most the last one before the wrap. */
  lemma BelowTop(io: Region, phys: Word, offset: Word)
    requires io.Valid() && !io.Single() && io.InStep(phys, offset)
    ensures offset <= WORD - (io.mask + 1) + And(phys, io.mask)
  {
    hide And, Pow2, High, Low;
    Masked(phys, io.shift);
    if offset + Pow2(io.shift) >= WORD { LastPlace(offset, io.shift); }
  }

  /** Virtual addresses and offsets undo each other. */
  lemma VirtInverse(io: Region, offset: Word, address: Word)
    ensures offset < io.size && io.virt != BAD ==> io.VirtToOffset(io.Virt(offset)) == offset
    ensures io.virt != BAD && io.VirtToOffset(address) != BAD ==>
              io.VirtToOffset(address) < io.size && io.Virt(io.VirtToOffset(address)) == address
    ensures io.VirtToOffset(address) == BAD <==> forall o: Word :: o < io.size ==> Add(io.virt, o) != address
  {
    hide Add, Sub;
    forall o: Word ensures Sub(Add(io.virt, o), io.virt) == o {
      SubUndoesAdd(io.virt, o);
    }
    AddUndoesSub(io.virt, address);
  }

  /** The address of an offset; outside the region, or without a virtual address, the null pointer. */
  lemma VirtIs(io: Region, offset: Word)
    ensures io.virt != BAD && offset < io.size ==> io.Virt(offset) == (io.virt + offset) % WORD
    ensures io.virt == BAD || io.size <= offset ==> io.Virt(offset) == 0
    ensures io.Virt(offset) != 0 ==> exists o: Word :: o < io.size && Add(io.virt, o) == io.Virt(offset)
  {
    if io.Virt(offset) != 0 {
      assert Add(io.virt, offset) == io.Virt(offset);
    }
  }

  /** The place after some whole pages is at the same place of the frame of the page that it is in. */
  lemma PhysOfPlace(io: Region, page: nat, place: nat, offset: Word)
    requires io.Valid() && io.shift < 64 && io.physmap.Some? && offset < io.size
    requires offset == Pow2(io.shift) * page + place && place < Pow2(io.shift)
    ensures page < |io.physmap.value| && io.Phys(offset) == (io.physmap.value[page] + place) % WORD
  {
    hide And, High, Low, Pow2;
    HighIsDiv(offset, io.shift);
    DivUnique(offset, Pow2(io.shift), page, place);
    LowOf(io.shift, page, place);
    MaskIsLow(offset, io.shift);
    assert io.Page(offset) == page;
  }

  /** A single page is one frame; there is no address outside the region or without a table. */
  lemma PhysElsewhere(io: Region, offset: Word)
    requires io.Valid()
    ensures io.physmap == None || io.size <= offset ==> io.Phys(offset) == BAD
    ensures io.physmap.Some? && offset < io.size && io.shift >= 64 ==>
              0 < |io.physmap.value| && io.Phys(offset) == (io.physmap.value[0] + offset) % WORD
  {
    hide And, High, Low, Pow2;
    MaskAll(offset);
    assert offset < io.size && io.shift >= 64 ==> io.Page(offset) == 0;
  }

  lemma SubUndoesAdd(x: Word, o: Word)
    ensures Sub(Add(x, o), x) == o
  {
  }

  lemma AddUndoesSub(x: Word, a: Word)
    ensures Add(x, Sub(a, x)) == a
  {
  }
}
