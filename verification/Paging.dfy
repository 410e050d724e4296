/** The kernel's own page tables, Kernel/Memory/paging.cpp: one table for every part of the 32-bit address
    space, a bitmap that repeats which pages are mapped, and the frame allocator. Page p of the address
    space is entry p % 1024 of table p / 1024. */
module Paging {
  import opened Words
  import opened Bitsets
  import opened PageRuns
  import opened Physical

  const TABLE_ENTRIES: nat := 1024

  /** Which frame each present table entry names, and which frames are in use. */
  datatype Memory = Memory(tables: map<nat, nat>, used: seq<bool>)

  /** The lowest start from `from` on, below `limit`, of a run of unmapped pages; `limit` when there is none. */
  function FirstRun(tables: map<nat, nat>, from: nat, limit: nat, count: nat): (i: nat)
    requires from <= limit
    ensures from <= i <= limit
    ensures forall j :: from <= j < i ==> !FreeRun(tables, j, count)
    ensures i < limit ==> FreeRun(tables, i, count)
    decreases limit - from
  {
    if from == limit || FreeRun(tables, from, count) then from else FirstRun(tables, from + 1, limit, count)
  }

  /** Maps `count` pages from `page` on, each to the lowest frame then free, until the frames run out. */
  function Take(m: Memory, page: nat, count: nat): Memory
    decreases count
  {
    var f := FirstFree(m.used);
    if count == 0 || f == |m.used| then m
    else Take(Memory(m.tables[page := f], m.used[f := true]), page + 1, count - 1)
  }

  function Min(a: nat, b: nat): nat {
    if a <= b then a else b
  }

  /** How many pages `Take` maps. */
  function TakenPages(m: Memory, count: nat): nat {
    Min(count, FreeCount(m.used))
  }

  /** Page page + i is mapped, to a frame free in `was` and now in use. */
  predicate Fresh(was: Memory, now: Memory, page: nat) {
    && page in now.tables && now.tables[page] < |was.used| == |now.used|
    && !was.used[now.tables[page]] && now.used[now.tables[page]]
  }

  /** Exactly the first pages of the run become mapped; every other page keeps its entry or its absence. */
  lemma {:induction false} TakeMapsTheRun(m: Memory, page: nat, count: nat, p: nat)
    requires FreeRun(m.tables, page, count)
    ensures var r, k := Take(m, page, count), TakenPages(m, count);
            if page <= p < page + k then Fresh(m, r, p)
            else (p in r.tables <==> p in m.tables) && (p in m.tables ==> r.tables[p] == m.tables[p])
    decreases count
  {
    NoneFree(m.used);
    var f := FirstFree(m.used);
    if count > 0 && f < |m.used| {
      TakenCount(m.used, f);
      var m' := Memory(m.tables[page := f], m.used[f := true]);
      TakeMapsTheRun(m', page + 1, count - 1, p);
      TakeKeepsUsed(m', page + 1, count - 1, f);
    }
  }

  /** A frame in use stays in use, and none beyond the last frame appears. */
  lemma {:induction false} TakeKeepsUsed(m: Memory, page: nat, count: nat, f: nat)
    ensures |Take(m, page, count).used| == |m.used|
    ensures f < |m.used| && m.used[f] ==> Take(m, page, count).used[f]
    decreases count
  {
    var g := FirstFree(m.used);
    if count > 0 && g < |m.used| {
      TakeKeepsUsed(Memory(m.tables[page := g], m.used[g := true]), page + 1, count - 1, f);
    }
  }

  /** The frames of the run ascend, so no two pages share one. */
  lemma {:induction false} TakeAscends(m: Memory, page: nat, count: nat, i: nat, j: nat)
    requires FreeRun(m.tables, page, count)
    requires page <= i < j < page + TakenPages(m, count)
    ensures var r := Take(m, page, count);
            i in r.tables && j in r.tables && r.tables[i] < r.tables[j]
    decreases count
  {
    NoneFree(m.used);
    var f := FirstFree(m.used);
    TakenCount(m.used, f);
    var m' := Memory(m.tables[page := f], m.used[f := true]);
    if i == page {
      TakeMapsTheRun(m', page + 1, count - 1, i);
      TakeMapsTheRun(m', page + 1, count - 1, j);
    } else {
      TakeAscends(m', page + 1, count - 1, i, j);
    }
  }

  /** A frame that was free is in use afterwards exactly when a page of the run has it, and no page
      of the run has a higher frame than one left free. */
  lemma {:induction false} TakeUsesTheLowest(m: Memory, page: nat, count: nat, f: nat)
    requires FreeRun(m.tables, page, count) && f < |m.used| && !m.used[f]
    ensures var r, k := Take(m, page, count), TakenPages(m, count);
            && |r.used| == |m.used|
            && (r.used[f] ==> exists p :: page <= p < page + k && p in r.tables && r.tables[p] == f)
            && (!r.used[f] ==> forall p :: page <= p < page + k ==> p in r.tables && r.tables[p] < f)
    decreases count
  {
    NoneFree(m.used);
    TakeKeepsUsed(m, page, count, f);
    var g := FirstFree(m.used);
    if count > 0 && g < |m.used| {
      TakenCount(m.used, g);
      var m' := Memory(m.tables[page := g], m.used[g := true]);
      TakeMapsTheRun(m', page + 1, count - 1, page);
      if f == g {
        TakeKeepsUsed(m', page + 1, count - 1, f);
        assert page in Take(m, page, count).tables;
      } else {
        TakeUsesTheLowest(m', page + 1, count - 1, f);
      }
    }
  }

  /** The memory together with the bitmap of mapped pages. */
  datatype State = State(memory: Memory, mapped: seq<bool>)

  /** The bitmap says which pages are mapped. */
  predicate Told(s: State, p: int) {
    0 <= p < |s.mapped| ==> (s.mapped[p] <==> p in s.memory.tables)
  }

  /** A mapped frame is in use. */
  predicate Backed(s: State, p: int) {
    p in s.memory.tables ==>
      p < |s.mapped| && s.memory.tables[p] < |s.memory.used| && s.memory.used[s.memory.tables[p]]
  }

  ghost predicate Consistent(s: State) {
    && |s.mapped| == |s.memory.used| == FRAMES
    && (forall p :: Told(s, p)) && (forall p :: Backed(s, p))
  }

  type Kernel = s: State | Consistent(s)
    ghost witness State(Memory(map[], seq(FRAMES, _ => true)), seq(FRAMES, _ => false))

  lemma MappedConsistent(s: Kernel, page: nat, frame: nat)
    requires page < FRAMES && frame < FRAMES && page !in s.memory.tables
    ensures Consistent(State(Memory(s.memory.tables[page := frame], s.memory.used[frame := true]), s.mapped[page := true]))
  {
    var s' := State(Memory(s.memory.tables[page := frame], s.memory.used[frame := true]), s.mapped[page := true]);
    forall p
      ensures Told(s', p) && Backed(s', p)
    {
      assert Told(s, p) && Backed(s, p);
    }
  }

  /** A page is mapped exactly when its bit is set, and its frame is in use. */
  lemma KernelPage(s: Kernel, p: nat)
    requires p < FRAMES
    ensures |s.mapped| == |s.memory.used| == FRAMES
    ensures s.mapped[p] <==> p in s.memory.tables
    ensures p in s.memory.tables ==> s.memory.tables[p] < FRAMES && s.memory.used[s.memory.tables[p]]
  {
    assert Told(s, p) && Backed(s, p);
  }

  // ---------- Giving pages back ----------

  /** `PAGE_COUNT` */
  function PagesAsked(size: nat): nat {
    size / PAGE_SIZE + 1
  }

  /** The first entry `freePage` looks at: the table of the address is left out of account. */
  function FreedFrom(address: Word): nat {
    address / PAGE_SIZE % TABLE_ENTRIES
  }

  /** What a page table entry names; an absent one is all zero. */
  function FrameNamed(m: Memory, page: nat): nat {
    if page in m.tables then m.tables[page] else 0
  }

  /** The frame given back for an entry: its frame number is taken for an address. */
  function FrameFreed(m: Memory, page: nat): nat {
    FrameNamed(m, page) / PAGE_SIZE
  }

  function FreeOne(m: Memory, page: nat): Memory {
    var f := FrameFreed(m, page);
    Memory(m.tables - {page}, if f < |m.used| then m.used[f := false] else m.used)
  }

  /** The loop of `freePage` over `count` entries from `page` on. */
  function Freed(m: Memory, page: nat, count: nat): Memory
    decreases count
  {
    if count == 0 then m else Freed(FreeOne(m, page), page + 1, count - 1)
  }

  function Cleared(bits: seq<bool>, page: nat, count: nat): seq<bool>
    decreases count
  {
    if count == 0 then bits else Cleared(if page < |bits| then bits[page := false] else bits, page + 1, count - 1)
  }

  lemma {:induction false} ClearedAt(bits: seq<bool>, page: nat, count: nat, p: nat)
    ensures |Cleared(bits, page, count)| == |bits|
    ensures p < |bits| ==> Cleared(bits, page, count)[p] == (bits[p] && !(page <= p < page + count))
    decreases count
  {
    if count > 0 {
      ClearedAt(if page < |bits| then bits[page := false] else bits, page + 1, count - 1, p);
    }
  }

  /** The entries of the loop are gone, the others are as they were. */
  lemma {:induction false} FreedPages(m: Memory, page: nat, count: nat, p: nat)
    ensures var r := Freed(m, page, count);
            && |r.used| == |m.used|
            && (p in r.tables <==> p in m.tables && !(page <= p < page + count))
            && (p in r.tables ==> r.tables[p] == m.tables[p])
    decreases count
  {
    if count > 0 {
      FreedPages(FreeOne(m, page), page + 1, count - 1, p);
    }
  }

  /** Page p of the loop has frame g given back. */
  predicate GivesBack(m: Memory, page: nat, count: nat, p: nat, g: nat) {
    page <= p < page + count && FrameFreed(m, p) == g
  }

  /** A frame is free afterwards exactly when it was, or an entry of the loop has it given back. */
  lemma {:induction false} FreedFrames(m: Memory, page: nat, count: nat, g: nat)
    requires g < |m.used|
    ensures |Freed(m, page, count).used| == |m.used|
    ensures Freed(m, page, count).used[g] <==> m.used[g] && forall p :: !GivesBack(m, page, count, p, g)
    decreases count
  {
    if count > 0 {
      var m1, next, left := FreeOne(m, page), page + 1, count - 1;
      FreedFrames(m1, next, left, g);
      if p: nat :| GivesBack(m, page, count, p, g) {
        assert p == page || GivesBack(m1, next, left, p, g);
      }
      if p: nat :| GivesBack(m1, next, left, p, g) {
        assert GivesBack(m, page, count, p, g);
      }
      assert FrameFreed(m, page) == g ==> GivesBack(m, page, count, page, g);
    }
  }

  /** No page that stays mapped has a frame that is given back. */
  ghost predicate ExposesNone(m: Memory, page: nat, count: nat) {
    forall p: nat, q: nat :: p in m.tables && !(page <= p < page + count) ==> !GivesBack(m, page, count, q, m.tables[p])
  }

  lemma KernelFrame(s: Kernel, p: nat)
    ensures FrameNamed(s.memory, p) < FRAMES
  {
    assert Backed(s, p);
  }

  lemma FreedConsistent(s: Kernel, page: nat, count: nat)
    requires ExposesNone(s.memory, page, count)
    ensures Consistent(State(Freed(s.memory, page, count), Cleared(s.mapped, page, count)))
  {
    var r, bits := Freed(s.memory, page, count), Cleared(s.mapped, page, count);
    FreedPages(s.memory, page, count, 0);
    ClearedAt(s.mapped, page, count, 0);
    forall p: nat
      ensures Told(State(r, bits), p) && Backed(State(r, bits), p)
    {
      FreedPages(s.memory, page, count, p);
      ClearedAt(s.mapped, page, count, p);
      assert Told(s, p) && Backed(s, p);
      if p in r.tables {
        FreedFrames(s.memory, page, count, r.tables[p]);
      }
    }
  }

  /** Giving pages back keeps every mapped frame in use exactly when it exposes none of those left mapped. */
  lemma FreeKeepsIff(s: Kernel, page: nat, count: nat)
    ensures Consistent(State(Freed(s.memory, page, count), Cleared(s.mapped, page, count)))
            <==> ExposesNone(s.memory, page, count)
  {
    var r := State(Freed(s.memory, page, count), Cleared(s.mapped, page, count));
    if ExposesNone(s.memory, page, count) {
      FreedConsistent(s, page, count);
    } else {
      var p: nat, q: nat :| p in s.memory.tables && !(page <= p < page + count)
                            && GivesBack(s.memory, page, count, q, s.memory.tables[p]);
      assert Backed(s, p);
      FreedPages(s.memory, page, count, p);
      FreedFrames(s.memory, page, count, s.memory.tables[p]);
      assert !Backed(r, p);
    }
  }

  datatype MapResult = Mapped | SameAgain | MisalignedPanic | ConflictPanic

  lemma Untouched(used: seq<bool>, bits: seq<bool>)
    requires |used| == |bits| == FRAMES && forall p :: 0 <= p < FRAMES ==> !bits[p]
    ensures Consistent(State(Memory(map[], used), bits))
  {
  }

  class KernelPaging {
    /** The present entries of `pageTables`: page number to frame number. */
    var tables: map<nat, nat>
    /** `virtualMemoryBitset` */
    const mapped: Bitset
    const physical: PhysicalManager
    ghost var state: Kernel

    ghost predicate Valid()
      reads this, mapped.words, physical.memory.words
    {
      && mapped.Valid() && mapped.size == FRAMES && physical.Valid()
      && mapped.words != physical.memory.words
      && state == State(Memory(tables, physical.Used()), mapped.Bits())
    }

    ghost function View(): Memory
      reads this
    {
      state.memory
    }

    constructor (frames: PhysicalManager)
      requires frames.Valid()
      ensures Valid() && physical == frames && tables == map[] && View().used == frames.Used()
    {
      tables := map[];
      mapped := new Bitset(FRAMES, false);
      physical := frames;
      new;
      Untouched(frames.Used(), mapped.Bits());
      state := State(Memory(map[], frames.Used()), mapped.Bits());
    }

    method MapKernelPage(vaddr: nat, paddr: nat) returns (result: MapResult)
      requires Valid() && vaddr < ADDRESS_SPACE && paddr < ADDRESS_SPACE
      modifies this`tables, this`state, mapped.words, physical.memory.words
      ensures Valid()
      ensures var page, frame, was := vaddr / PAGE_SIZE, paddr / PAGE_SIZE, old(View());
              result == if vaddr % PAGE_SIZE != 0 then MisalignedPanic
                        else if page !in was.tables then Mapped
                        else if was.tables[page] == frame then SameAgain
                        else ConflictPanic
      ensures var page, frame, was := vaddr / PAGE_SIZE, paddr / PAGE_SIZE, old(View());
              View() == if result == Mapped then Memory(was.tables[page := frame], was.used[frame := true]) else was
    {
      var pde, pte := vaddr / PAGE_SIZE / TABLE_ENTRIES, vaddr / PAGE_SIZE % TABLE_ENTRIES;
      if vaddr % PAGE_SIZE != 0 {
        return MisalignedPanic;
      }
      var entry := pde * TABLE_ENTRIES + pte;
      if entry in tables {
        if tables[entry] == paddr / PAGE_SIZE {
          return SameAgain;
        }
        return ConflictPanic;
      }
      MappedConsistent(state, entry, paddr / PAGE_SIZE);
      state := State(Memory(tables[entry := paddr / PAGE_SIZE], state.memory.used[paddr / PAGE_SIZE := true]),
                     state.mapped[entry := true]);
      tables := tables[entry := paddr / PAGE_SIZE];
      physical.SetUsed(paddr);
      mapped.Set(vaddr / PAGE_SIZE);
      return Mapped;
    }

    /** A request of 31 pages at most: the window search cannot look for more. The run found lies below the
        last page of the address space. When the frames run out, the pages mapped so far stay mapped. */
    method NewPage(size: nat, beyond: Word) returns (address: nat)
      requires Valid() && PagesAsked(size) < 32
      modifies this`tables, this`state, mapped.words, physical.memory.words
      ensures Valid()
      ensures View() == After(old(View()), PagesAsked(size)) && address == Returned(old(View()), PagesAsked(size))
    {
      var count := size / PAGE_SIZE + 1;
      ghost var was := View();
      var first := mapped.FindFirstRange(count, false, beyond);
      RunFound(state, mapped.Bits(), count, first);
      if first == NPOS {
        return 0;
      }
      var enough := MapRun(first, count);
      return if enough then first * PAGE_SIZE else 0;
    }

    /** The mapping loop of `newPage`: each page of the run gets the lowest frame then free. */
    method MapRun(first: nat, count: nat) returns (enough: bool)
      requires Valid() && first + count <= FRAMES && FreeRun(tables, first, count)
      modifies this`tables, this`state, mapped.words, physical.memory.words
      ensures Valid() && View() == Take(old(View()), first, count)
      ensures enough <==> FreeCount(old(View()).used) >= count
    {
      ghost var was := View();
      var i := first;
      while i < first + count
        invariant Valid() && first <= i <= first + count
        invariant FreeRun(tables, i, first + count - i)
        invariant Take(was, first, count) == Take(View(), i, first + count - i)
        invariant FreeCount(was.used) - (i - first) == FreeCount(View().used)
      {
        TakeOneFirst(View(), i, first + count - i);
        var more := MapNext(i);
        if !more {
          return false;
        }
        i := i + 1;
      }
      return true;
    }

    /** `freePage` as written. The state stays consistent exactly when no page left mapped has one of the
        frames that the loop gives back. */
    method FreePage(address: Word, size: nat)
      requires Valid() && FreedFrom(address) + PagesAsked(size) <= FRAMES
      modifies this`tables, this`state, mapped.words, physical.memory.words
      ensures Memory(tables, physical.Used()) == Freed(old(View()), FreedFrom(address), PagesAsked(size))
      ensures mapped.Bits() == Cleared(old(mapped.Bits()), FreedFrom(address), PagesAsked(size))
      ensures Valid() <== ExposesNone(old(View()), FreedFrom(address), PagesAsked(size))
    {
      ghost var was := state;
      var first, count := address / PAGE_SIZE % TABLE_ENTRIES, size / PAGE_SIZE + 1;
      ghost var freed, cleared := Freed(was.memory, first, count), Cleared(was.mapped, first, count);
      var i := first;
      while i < first + count
        invariant first <= i <= first + count
        invariant mapped.Valid() && mapped.size == FRAMES && physical.Valid()
        invariant forall p :: p in tables ==> p in was.memory.tables && tables[p] == was.memory.tables[p]
        invariant Freed(Memory(tables, physical.Used()), i, first + count - i) == freed
        invariant Cleared(mapped.Bits(), i, first + count - i) == cleared
      {
        mapped.Clear(i);
        var pageAddr := if i in tables then tables[i] else 0;
        KernelFrame(was, i);
        physical.SetFree(pageAddr);
        tables := tables - {i};
        i := i + 1;
      }
      if ExposesNone(was.memory, first, count) {
        FreedConsistent(was, first, count);
        state := State(freed, cleared);
      }
    }

    /** One round of the loop of `newPage`. */
    method MapNext(page: nat) returns (found: bool)
      requires Valid() && page < FRAMES && page !in tables
      modifies this`tables, this`state, mapped.words, physical.memory.words
      ensures Valid() && View() == TakeOne(old(View()), page)
      ensures found <==> FreeCount(old(View()).used) > 0
    {
      NoneFree(View().used);
      var f := physical.FindNextFreePhysicalAddress();
      if f == NPOS {
        return false;
      }
      assert page * PAGE_SIZE / PAGE_SIZE == page && f * PAGE_SIZE / PAGE_SIZE == f;
      var result := MapKernelPage(page * PAGE_SIZE, f * PAGE_SIZE);
      assert result == Mapped;
      return true;
    }
  }

  function TakeOne(m: Memory, page: nat): Memory {
    var f := FirstFree(m.used);
    if f == |m.used| then m else Memory(m.tables[page := f], m.used[f := true])
  }

  lemma TakeOneFirst(m: Memory, page: nat, count: nat)
    requires count > 0 && FreeRun(m.tables, page, count)
    ensures var m' := TakeOne(m, page);
            if FreeCount(m.used) == 0 then Take(m, page, count) == m' == m
            else && Take(m, page, count) == Take(m', page + 1, count - 1)
                 && FreeCount(m'.used) == FreeCount(m.used) - 1
                 && FreeRun(m'.tables, page + 1, count - 1)
  {
    NoneFree(m.used);
    if FreeCount(m.used) > 0 {
      TakenCount(m.used, FirstFree(m.used));
    }
  }

  lemma RunIsWindow(s: Kernel, j: nat, count: nat)
    requires j + count <= FRAMES == |s.mapped|
    ensures FreeRun(s.memory.tables, j, count) <==> ClearRun(s.mapped, j, count)
  {
    forall p | j <= p < j + count
      ensures s.mapped[p] <==> p in s.memory.tables
    {
      KernelPage(s, p);
    }
  }

  /** The window search over the bitmap finds the first run of the table. */
  lemma RunFound(s: Kernel, bits: seq<bool>, count: nat, r: nat)
    requires bits == s.mapped && |bits| == FRAMES && count <= FRAMES
    requires r < FRAMES - count ==> Accepts(bits, r, count, false)
    requires r < FRAMES - count ==> forall j :: 0 <= j < r ==> !Accepts(bits, j, count, false)
    requires r >= FRAMES - count ==> r == NPOS && forall j :: 0 <= j < FRAMES - count ==> !Accepts(bits, j, count, false)
    ensures var first := FirstRun(s.memory.tables, 0, FRAMES - count, count);
            if first == FRAMES - count then r == NPOS else r == first
  {
    var first := FirstRun(s.memory.tables, 0, FRAMES - count, count);
    if first < FRAMES - count {
      RunIsWindow(s, first, count);
      assert Accepts(bits, first, count, false);
    }
    if r < FRAMES - count {
      RunIsWindow(s, r, count);
      assert FreeRun(s.memory.tables, r, count);
    }
  }

  // ---------- What a caller of newPage gets ----------

  /** The pages a request of `size` bytes is promised: what holds the bytes, and one at least. */
  function PagesPromised(size: nat): nat {
    if size < PAGE_SIZE then 1 else (size + PAGE_SIZE - 1) / PAGE_SIZE
  }

  /** `newPage` takes what it promises exactly when the size is not a whole number of pages, or zero;
      otherwise it takes one page more. */
  lemma OnePageTooMany(size: nat)
    ensures size / PAGE_SIZE + 1 == PagesPromised(size) <==> size == 0 || size % PAGE_SIZE != 0
    ensures size > 0 && size % PAGE_SIZE == 0 ==> size / PAGE_SIZE + 1 == PagesPromised(size) + 1
  {
    var q, r := size / PAGE_SIZE, size % PAGE_SIZE;
    assert size == q * PAGE_SIZE + r;
    if r > 0 {
      assert (size + PAGE_SIZE - 1) / PAGE_SIZE == q + 1;
    } else {
      assert (size + PAGE_SIZE - 1) / PAGE_SIZE == q;
    }
  }

  /** What `newPage` returns, by the state it finds. */
  function Returned(m: Memory, count: nat): nat
    requires count <= FRAMES
  {
    var first := FirstRun(m.tables, 0, FRAMES - count, count);
    if first == FRAMES - count || FreeCount(m.used) < count then 0 else first * PAGE_SIZE
  }

  /** A search that finds a run with frames enough for it. */
  predicate Succeeds(m: Memory, count: nat)
    requires count <= FRAMES
  {
    FirstRun(m.tables, 0, FRAMES - count, count) < FRAMES - count && FreeCount(m.used) >= count
  }

  /** With page 0 mapped NULL means that the request failed, and page 0 stays mapped. */
  lemma NullMeansFailure(m: Memory, count: nat)
    requires 0 < count < FRAMES && 0 in m.tables
    ensures Returned(m, count) == 0 <==> !Succeeds(m, count)
    ensures 0 in After(m, count).tables && After(m, count).tables[0] == m.tables[0]
  {
    var first := FirstRun(m.tables, 0, FRAMES - count, count);
    if first < FRAMES - count {
      assert FreeRun(m.tables, first, count);
      TakeMapsTheRun(m, first, count, 0);
    }
  }

  /** The memory after a request for `count` pages. */
  function After(m: Memory, count: nat): Memory
    requires count <= FRAMES
  {
    var first := FirstRun(m.tables, 0, FRAMES - count, count);
    if first == FRAMES - count then m else Take(m, first, count)
  }

  function AfterAll(m: Memory, counts: seq<nat>): Memory
    requires forall i :: 0 <= i < |counts| ==> 0 < counts[i] < FRAMES
    decreases |counts|
  {
    if counts == [] then m else AfterAll(After(m, counts[0]), counts[1..])
  }

  /** Early memory is mapped before the first request, page 0 among it; from then on, over any number of
      requests and until a page is given back, NULL means that the request failed. */
  lemma {:induction false} NullMeansFailureAlways(m: Memory, counts: seq<nat>, count: nat)
    requires 0 in m.tables && 0 < count < FRAMES && forall i :: 0 <= i < |counts| ==> 0 < counts[i] < FRAMES
    ensures Returned(AfterAll(m, counts), count) == 0 <==> !Succeeds(AfterAll(m, counts), count)
    decreases |counts|
  {
    if counts == [] {
      NullMeansFailure(m, count);
    } else {
      NullMeansFailure(m, counts[0]);
      NullMeansFailureAlways(After(m, counts[0]), counts[1..], count);
    }
  }

  /** Without page 0, NULL is returned although all pages were mapped exactly when the pages from 0 on are
      unmapped. */
  lemma NullThoughMapped(m: Memory, count: nat)
    requires 0 < count < FRAMES && Succeeds(m, count)
    ensures TakenPages(m, count) == count
    ensures Returned(m, count) == 0 <==> FreeRun(m.tables, 0, count)
  {
    var first := FirstRun(m.tables, 0, FRAMES - count, count);
    if FreeRun(m.tables, 0, count) {
      assert first == 0;
    }
  }

  /** `freePage` can unmap page 0: with the first table full a request is answered by page 1024, and giving
      that page back frees entry 0 instead; the next request maps page 0 and returns NULL. */
  lemma NullReached(m: Memory)
    requires (forall p :: 0 <= p < TABLE_ENTRIES ==> p in m.tables) && TABLE_ENTRIES !in m.tables
    requires FreeCount(m.used) > 1
    ensures Returned(m, 1) == TABLE_ENTRIES * PAGE_SIZE
    ensures var m1 := After(m, 1);
            var m2 := Freed(m1, FreedFrom(TABLE_ENTRIES * PAGE_SIZE), PagesAsked(1));
            0 !in m2.tables && TABLE_ENTRIES in m2.tables && Succeeds(m2, 1) && Returned(m2, 1) == 0
  {
    forall j: nat | j < TABLE_ENTRIES
      ensures !FreeRun(m.tables, j, 1)
    {
      assert j in m.tables;
    }
    FirstAt(m.tables, 0, FRAMES - 1, 1, TABLE_ENTRIES);
    NoneFree(m.used);
    var f := FirstFree(m.used);
    TakenCount(m.used, f);
    var m1 := After(m, 1);
    assert m1 == Memory(m.tables[TABLE_ENTRIES := f], m.used[f := true]) by {
      assert Take(Memory(m.tables[TABLE_ENTRIES := f], m.used[f := true]), TABLE_ENTRIES + 1, 0)
          == Memory(m.tables[TABLE_ENTRIES := f], m.used[f := true]);
    }
    var m2 := Freed(m1, 0, 1);
    assert m2 == FreeOne(m1, 0);
    FreedMore(m1.used, FrameFreed(m1, 0));
    FirstAt(m2.tables, 0, FRAMES - 1, 1, 0);
  }

  lemma {:induction false} FirstAt(tables: map<nat, nat>, from: nat, limit: nat, count: nat, i: nat)
    requires from <= i < limit && FreeRun(tables, i, count) && forall j :: from <= j < i ==> !FreeRun(tables, j, count)
    ensures FirstRun(tables, from, limit, count) == i
    decreases i - from
  {
    if from < i {
      FirstAt(tables, from + 1, limit, count, i);
    }
  }

  /** A frame given back does not lower the count. */
  lemma FreedMore(used: seq<bool>, f: nat)
    ensures FreeCount(if f < |used| then used[f := false] else used) >= FreeCount(used)
  {
    if f < |used| {
      if used[f] {
        TakenCount(used[f := false], f);
        assert used[f := false][f := true] == used;
      } else {
        assert used[f := false] == used;
      }
    }
  }

  /** Giving a run back takes its pages out of the tables, and no others, exactly when it lies in the first
      table. */
  lemma FreesTheRunIff(m: Memory, first: nat, size: nat)
    requires first + PagesAsked(size) <= FRAMES && PagesAsked(size) < 32
    requires forall p: nat | first <= p < first + PagesAsked(size) :: p in m.tables
    ensures var r := Freed(m, FreedFrom(first * PAGE_SIZE), PagesAsked(size));
            (forall p: nat :: p in r.tables <==> p in m.tables && !(first <= p < first + PagesAsked(size)))
            <==> first < TABLE_ENTRIES
  {
    var from, count := FreedFrom(first * PAGE_SIZE), PagesAsked(size);
    var r := Freed(m, from, count);
    forall p: nat
      ensures p in r.tables <==> p in m.tables && !(from <= p < from + count)
    {
      FreedPages(m, from, count, p);
    }
    assert from == first % TABLE_ENTRIES;
    if first >= TABLE_ENTRIES {
      assert from + count <= first;
      assert first in r.tables;
    } else {
      assert from == first;
    }
  }

  /** A page that was allocated and given back leaves the memory as it was exactly when it is a single page
      of the first table and its frame is frame 0. */
  lemma AllocateFreeIff(m: Memory, size: nat)
    requires PagesAsked(size) < 32 && Succeeds(m, PagesAsked(size))
    ensures var first := FirstRun(m.tables, 0, FRAMES - PagesAsked(size), PagesAsked(size));
            Freed(After(m, PagesAsked(size)), FreedFrom(first * PAGE_SIZE), PagesAsked(size)) == m
            <==> first < TABLE_ENTRIES && PagesAsked(size) == 1 && FirstFree(m.used) == 0
  {
    var count := PagesAsked(size);
    var first := FirstRun(m.tables, 0, FRAMES - count, count);
    var r := Freed(After(m, count), FreedFrom(first * PAGE_SIZE), count);
    assert FreeRun(m.tables, first, count);
    assert FreedFrom(first * PAGE_SIZE) == first % TABLE_ENTRIES;
    if r == m {
      FreedRunLow(m, first, count);
      OnlyFrameZero(m, first, count);
    }
    if first < TABLE_ENTRIES && count == 1 && FirstFree(m.used) == 0 {
      FrameZeroReturns(m, first);
    }
  }

  lemma FreedRunLow(m: Memory, first: nat, count: nat)
    requires 0 < count <= FreeCount(m.used) && FreeRun(m.tables, first, count) && count < 32
    requires Freed(Take(m, first, count), first % TABLE_ENTRIES, count) == m
    ensures first < TABLE_ENTRIES
  {
    TakeMapsTheRun(m, first, count, first);
    FreedPages(Take(m, first, count), first % TABLE_ENTRIES, count, first);
  }

  lemma FrameZeroReturns(m: Memory, first: nat)
    requires FreeRun(m.tables, first, 1) && FreeCount(m.used) > 0 && FirstFree(m.used) == 0
    ensures Freed(Take(m, first, 1), first, 1) == m
  {
    NoneFree(m.used);
    var m1 := Memory(m.tables[first := 0], m.used[0 := true]);
    assert Take(m1, first + 1, 0) == m1 && Take(m, first, 1) == m1;
    assert Freed(FreeOne(m1, first), first + 1, 0) == FreeOne(m1, first) == m;
  }

  /** Frames taken for a run are all given back only when there is one, frame 0. */
  lemma OnlyFrameZero(m: Memory, first: nat, count: nat)
    requires 0 < count <= FreeCount(m.used) && FreeRun(m.tables, first, count)
    requires Freed(Take(m, first, count), first, count).used == m.used
    ensures count == 1 && FirstFree(m.used) == 0
  {
    var m1, last := Take(m, first, count), first + count - 1;
    TakeMapsTheRun(m, first, count, last);
    var f := m1.tables[last];
    FreedFrames(m1, first, count, f);
    var p: nat :| GivesBack(m1, first, count, p, f);
    TakeMapsTheRun(m, first, count, p);
    if p < last {
      TakeAscends(m, first, count, p, last);
    }
    assert f == 0;
    if count > 1 {
      TakeAscends(m, first, count, first, last);
    }
    TakeMapsTheRun(m, first, count, first);
  }
}
