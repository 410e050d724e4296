/** The page frame allocator of Kernel/Memory/Physical.hpp, over the packed bitmap. A set bit is a frame in use. */
module Physical {
  import opened Bitsets

  const PAGE_SIZE: nat := 4096
  /** `MEM_BITMAP_SIZE`, one frame for each page of the 32-bit address space. */
  const FRAMES: nat := 0x10_0000
  const ADDRESS_SPACE: nat := 0x1_0000_0000

  /** The lowest frame from `from` on that is not in use, or the number of frames when all are. */
  function FreeFrom(used: seq<bool>, from: nat): (f: nat)
    requires from <= |used|
    ensures from <= f <= |used|
    ensures forall j :: from <= j < f ==> used[j]
    ensures f < |used| ==> !used[f]
    decreases |used| - from
  {
    if from == |used| || !used[from] then from else FreeFrom(used, from + 1)
  }

  function FirstFree(used: seq<bool>): nat {
    FreeFrom(used, 0)
  }

  /** The number of free frames. */
  function FreeCount(used: seq<bool>): nat {
    if used == [] then 0 else FreeCount(used[..|used| - 1]) + if used[|used| - 1] then 0 else 1
  }

  /** Taking a free frame leaves one less. */
  lemma {:induction false} TakenCount(used: seq<bool>, f: nat)
    requires f < |used| && !used[f]
    ensures FreeCount(used) == FreeCount(used[f := true]) + 1
  {
    var n := |used| - 1;
    var taken := used[f := true];
    if f == n {
      assert taken[..n] == used[..n];
    } else {
      assert taken[..n] == used[..n][f := true];
      TakenCount(used[..n], f);
    }
  }

  /** No frame is free exactly when the count is zero. */
  lemma {:induction false} NoneFree(used: seq<bool>)
    ensures FreeCount(used) == 0 <==> FirstFree(used) == |used|
  {
    var f := FirstFree(used);
    if f < |used| {
      TakenCount(used, f);
    } else {
      AllUsedCount(used);
    }
  }

  lemma {:induction false} AllUsedCount(used: seq<bool>)
    requires forall j :: 0 <= j < |used| ==> used[j]
    ensures FreeCount(used) == 0
  {
    if used != [] {
      AllUsedCount(used[..|used| - 1]);
    }
  }

  datatype SectionType = Available | Reserved | Acpi | Nvs | Bad | Bootloader | Kernel | Unknown

  /** A stretch of physical memory. */
  datatype Section = Section(base: nat, size: nat, kind: SectionType) {
    predicate Initialized() {
      base != 0 && size != 0
    }

    function Pages(): nat {
      size / PAGE_SIZE
    }

    /** It lies in the 32-bit address space. */
    predicate Fits() {
      base + size <= ADDRESS_SPACE
    }
  }

  /** `initialize` marks frame f free on behalf of this section. */
  predicate Frees(s: Section, f: nat) {
    s.Initialized() && s.kind == Available && s.base / PAGE_SIZE <= f < s.base / PAGE_SIZE + s.Pages()
  }

  predicate Released(sections: seq<Section>, f: nat) {
    exists i :: 0 <= i < |sections| && Frees(sections[i], f)
  }

  /** Every byte of frame f belongs to the section. */
  predicate Inside(s: Section, f: nat) {
    s.base <= f * PAGE_SIZE && (f + 1) * PAGE_SIZE <= s.base + s.size
  }

  /** An available section frees only frames that lie inside it exactly when its base is page aligned
      or it is smaller than a page; a misaligned base is rounded down. */
  lemma FreesOnlyInside(s: Section)
    requires s.Initialized() && s.kind == Available
    ensures (forall f: nat | Frees(s, f) :: Inside(s, f)) <==> s.base % PAGE_SIZE == 0 || s.size < PAGE_SIZE
  {
    var first := s.base / PAGE_SIZE;
    if s.size >= PAGE_SIZE {
      assert Frees(s, first);
    }
  }

  /** With an aligned base it frees every frame that lies inside it. */
  lemma FreesAllInside(s: Section, f: nat)
    requires s.Initialized() && s.kind == Available && s.base % PAGE_SIZE == 0
    ensures Frees(s, f) <==> Inside(s, f)
  {
  }

  /** `getPage` either hands out a frame by its address or panics. */
  datatype Page = Page(address: nat) | OutOfMemory

  class PhysicalManager {
    const memory: Bitset

    ghost predicate Valid() {
      memory.Valid() && memory.size == FRAMES
    }

    /** Which frames are in use. */
    ghost function Used(): (used: seq<bool>)
      requires Valid()
      reads memory.words
      ensures |used| == FRAMES
    {
      memory.Bits()
    }

    /** All memory is taken as reserved at first. */
    constructor ()
      ensures Valid() && fresh(memory) && fresh(memory.words)
      ensures forall f :: 0 <= f < FRAMES ==> Used()[f]
    {
      memory := new Bitset(FRAMES, true);
    }

    method SetFree(addr: nat)
      requires Valid() && addr < ADDRESS_SPACE
      modifies memory.words
      ensures Used() == old(Used())[addr / PAGE_SIZE := false]
    {
      memory.Clear(addr / PAGE_SIZE);
    }

    method SetUsed(addr: nat)
      requires Valid() && addr < ADDRESS_SPACE
      modifies memory.words
      ensures Used() == old(Used())[addr / PAGE_SIZE := true]
    {
      memory.Set(addr / PAGE_SIZE);
    }

    method SetFreeSection(s: Section)
      requires Valid() && s.Fits()
      modifies memory.words
      ensures forall f :: 0 <= f < FRAMES ==>
                Used()[f] == (old(Used())[f] && !(s.base / PAGE_SIZE <= f < s.base / PAGE_SIZE + s.Pages()))
    {
      var i := 0;
      while i < s.Pages()
        invariant i <= s.Pages()
        invariant forall f :: 0 <= f < FRAMES ==>
                    Used()[f] == (old(Used())[f] && !(s.base / PAGE_SIZE <= f < s.base / PAGE_SIZE + i))
      {
        assert (s.base + i * PAGE_SIZE) / PAGE_SIZE == s.base / PAGE_SIZE + i;
        SetFree(s.base + i * PAGE_SIZE);
        i := i + 1;
      }
    }

    /** Afterwards a frame is free exactly when it was, or some available section releases it. */
    method Initialize(sections: seq<Section>)
      requires Valid() && forall i :: 0 <= i < |sections| ==> sections[i].Fits()
      modifies memory.words
      ensures forall f :: 0 <= f < FRAMES ==> Used()[f] == (old(Used())[f] && !Released(sections, f))
    {
      for i := 0 to |sections|
        invariant forall f :: 0 <= f < FRAMES ==> Used()[f] == (old(Used())[f] && !Released(sections[..i], f))
      {
        var section := sections[i];
        ReleasedNext(sections, i);
        if section.Initialized() && section.kind == Available {
          SetFreeSection(section);
        }
      }
      assert sections[..|sections|] == sections;
    }

    /** The lowest free frame, now in use. */
    method GetPage() returns (page: Page)
      requires Valid()
      modifies memory.words
      ensures var f := FirstFree(old(Used()));
              if f == FRAMES then page == OutOfMemory && Used() == old(Used())
              else page == Page(f * PAGE_SIZE) && Used() == old(Used())[f := true]
    {
      var f := FindNextFreePhysicalAddress();
      if f == NPOS {
        return OutOfMemory;
      }
      SetUsed(f * PAGE_SIZE);
      return Page(f * PAGE_SIZE);
    }

    method FreePage(physAddr: nat)
      requires Valid() && physAddr < ADDRESS_SPACE
      modifies memory.words
      ensures Used() == old(Used())[physAddr / PAGE_SIZE := false]
    {
      SetFree(physAddr);
    }

    /** A frame index, not an address. */
    method FindNextFreePhysicalAddress() returns (f: nat)
      requires Valid()
      ensures f == if FirstFree(Used()) == FRAMES then NPOS else FirstFree(Used())
    {
      f := memory.FindFirstBit(false);
    }
  }

  lemma ReleasedNext(sections: seq<Section>, i: nat)
    requires i < |sections|
    ensures forall f: nat :: Released(sections[..i + 1], f) <==> Released(sections[..i], f) || Frees(sections[i], f)
  {
    assert sections[..i + 1] == sections[..i] + [sections[i]];
    forall f: nat
      ensures Released(sections[..i + 1], f) <==> Released(sections[..i], f) || Frees(sections[i], f)
    {
      if Frees(sections[i], f) {
        assert Frees(sections[..i + 1][i], f);
      }
      if Released(sections[..i], f) {
        var k :| 0 <= k < i && Frees(sections[..i][k], f);
        assert Frees(sections[..i + 1][k], f);
      }
    }
  }
}
