/** The virtual memory manager, Kernel/Memory/Virtual.cpp, on its two levels: a page directory of 1024
    entries over page tables of 1024 entries. Its callers see the flat map of AddressMap. */
module VirtualMemory {
  import opened Words
  import opened Bitsets
  import opened PageRuns
  import opened Physical
  import opened AddressMap

  /** The entries that count: those of tables whose directory entry is present. The table of an absent
      directory entry may hold anything, and the last table is the directory. */
  function Visible(directory: map<nat, nat>, tables: map<nat, Entry>): map<nat, Entry> {
    map p | p in tables && p / ENTRIES in directory && p / ENTRIES != SELF :: tables[p]
  }

  lemma VisibleIsTabled(directory: map<nat, nat>, tables: map<nat, Entry>, used: seq<bool>)
    ensures Tabled(Space(Visible(directory, tables), directory, used))
  {
  }

  function Cleared(tables: map<nat, Entry>, d: nat): map<nat, Entry> {
    map p | p in tables && p / ENTRIES != d :: tables[p]
  }

  /** A new table, cleared, shows no entry. */
  lemma ClearedTableShowsNothing(directory: map<nat, nat>, tables: map<nat, Entry>, d: nat, frame: nat)
    requires d !in directory
    ensures Visible(directory[d := frame], Cleared(tables, d)) == Visible(directory, tables)
  {
  }

  lemma EntryShows(directory: map<nat, nat>, tables: map<nat, Entry>, page: nat, e: Entry)
    requires page / ENTRIES in directory && page / ENTRIES != SELF
    ensures Visible(directory, tables[page := e]) == Visible(directory, tables)[page := e]
  {
  }

  lemma EntryCounts(directory: map<nat, nat>, tables: map<nat, Entry>, d: nat, e: nat)
    requires d in directory && d != SELF && e < ENTRIES
    ensures d * ENTRIES + e in Visible(directory, tables) <==> d * ENTRIES + e in tables
  {
  }

  /** An absent directory entry stands for 1024 unmapped pages. */
  lemma AbsentIsFree(directory: map<nat, nat>, tables: map<nat, Entry>, d: nat)
    requires d !in directory
    ensures FreeRun(Visible(directory, tables), d * ENTRIES, ENTRIES)
  {
    forall p | d * ENTRIES <= p < d * ENTRIES + ENTRIES
      ensures p !in Visible(directory, tables)
    {
      assert p / ENTRIES == d;
    }
  }

  /** `VirtualAddress` with offset 0 */
  function PageAddress(dirIndex: nat, tableIndex: nat): nat {
    (dirIndex * ENTRIES + tableIndex) * PAGE_SIZE
  }

  function DirIndex(addr: nat): nat {
    addr / PAGE_SIZE / ENTRIES
  }

  function TableIndex(addr: nat): nat {
    addr / PAGE_SIZE % ENTRIES
  }

  lemma MapPagesStep(s: Space, page: nat, count: nat, flags: Flags)
    requires count > 0
    ensures var r := MapNext(s, page, flags);
            MapPages(s, page, count, flags) == if r.outcome != Done then r else MapPages(r.space, (page + 1) % FRAMES, count - 1, flags)
  {
    assert Mapper(flags)(s, page) == MapNext(s, page, flags);
  }

  /** The address i pages further on; addresses are 32 bits wide. */
  function Advance(vaddr: Word, i: nat): Word {
    (vaddr + i * PAGE_SIZE) % ADDRESS_SPACE
  }

  /** The address behind `count` pages from page i on; a search that failed answers the last address. */
  function Behind(i: nat, count: nat): Word {
    ((if i == 0xFFFF_FFFF then i else i * PAGE_SIZE) + count * PAGE_SIZE) % 0x1_0000_0000
  }

  lemma NextPage(x: Word)
    ensures (x + PAGE_SIZE) % ADDRESS_SPACE / PAGE_SIZE == (x / PAGE_SIZE + 1) % FRAMES
  {
    if x + PAGE_SIZE >= ADDRESS_SPACE {
      assert (x + PAGE_SIZE) % ADDRESS_SPACE == x + PAGE_SIZE - ADDRESS_SPACE;
    }
  }

  lemma WrappedSum(x: nat, y: nat)
    ensures (x + y) % ADDRESS_SPACE == (x % ADDRESS_SPACE + y) % ADDRESS_SPACE
  {
  }

  lemma AdvanceByOne(first: Word, i: nat)
    ensures Advance(first, i + 1) == Advance(Advance(first, i), 1)
    ensures Advance(Advance(first, i), 1) / PAGE_SIZE == (Advance(first, i) / PAGE_SIZE + 1) % FRAMES
  {
    WrappedSum(first + i * PAGE_SIZE, PAGE_SIZE);
    NextPage(Advance(first, i));
  }

  /** The address found, its page, and the address behind the run. */
  lemma FoundAddress(i: nat, vaddr: Word, count: nat)
    requires i < FRAMES || i == NPOS
    requires vaddr == if i == NPOS then NPOS else i * PAGE_SIZE
    ensures vaddr / PAGE_SIZE == (if i == NPOS then FRAMES - 1 else i) && Advance(vaddr, count) == Behind(i, count)
  {
  }

  lemma FoundInside(s: Space, start: nat, end: nat, count: nat)
    requires end < FRAMES
    ensures Found(s, start, end, count) < FRAMES || Found(s, start, end, count) == NPOS
  {
  }

  class VirtualManager {
    const rangeStart: Word
    const rangeEnd: Word
    const searchStart: Word
    const physical: PhysicalManager
    /** `m_directory`: the frame of the table of each present entry. */
    var directory: map<nat, nat>
    /** The present entries of all tables, entry e of table d being number 1024 * d + e. */
    var tables: map<nat, Entry>

    ghost predicate Valid() {
      physical.Valid()
    }

    /** What the callers see. */
    ghost function View(): Space
      requires Valid()
      reads this, physical.memory.words
    {
      Space(Visible(directory, tables), directory, physical.Used())
    }

    constructor (dir: map<nat, nat>, entries: map<nat, Entry>, start: Word, rangeSize: Word, frames: PhysicalManager)
      requires frames.Valid()
      ensures Valid() && physical == frames && searchStart == rangeStart == start
      ensures rangeEnd == (start + rangeSize) % ADDRESS_SPACE
      ensures View() == Space(Visible(dir, entries), dir, frames.Used())
    {
      directory, tables, physical := dir, entries, frames;
      rangeStart, rangeEnd, searchStart := start, (start + rangeSize) % ADDRESS_SPACE, start;
    }

    method FindFirstFreePageRange(range: nat) returns (addr: nat)
      requires Valid()
      ensures var i := Found(View(), searchStart / PAGE_SIZE, rangeEnd / PAGE_SIZE, range);
              addr == if i == NPOS then NPOS else i * PAGE_SIZE
    {
      ghost var s, n := View(), AtLeastOne(range);
      ghost var start, end := searchStart / PAGE_SIZE, rangeEnd / PAGE_SIZE;
      ghost var from := EffectiveStart(s, start, end);
      var freeRange: nat, freeRangeAddress: nat := 0, NPOS;
      var dirIdx := DirIndex(searchStart);
      while dirIdx < DirIndex(rangeEnd)
        invariant DirIndex(searchStart) <= dirIdx
        invariant dirIdx == DirIndex(searchStart) ==> freeRange == 0
        invariant dirIdx > DirIndex(searchStart) ==>
                    dirIdx <= DirIndex(rangeEnd) && Scanned(s.pages, from, dirIdx * ENTRIES, freeRange, n)
        invariant freeRange > 0 ==> freeRangeAddress == (dirIdx * ENTRIES - freeRange) * PAGE_SIZE
      {
        if dirIdx !in directory {
          if freeRange == 0 {
            freeRangeAddress := PageAddress(dirIdx, 0);
          }
          AbsentIsFree(directory, tables, dirIdx);
          ScanFree(s.pages, from, dirIdx * ENTRIES, freeRange, ENTRIES, n, end / ENTRIES * ENTRIES);
          freeRange := freeRange + ENTRIES;
          if freeRange >= range {
            return freeRangeAddress;
          }
        } else {
          var tableIdxStart := if dirIdx == DirIndex(searchStart) then TableIndex(searchStart) else 0;
          var found;
          found, freeRange, freeRangeAddress :=
            ScanTable(dirIdx, tableIdxStart, range, freeRange, freeRangeAddress, from, end / ENTRIES * ENTRIES);
          if found {
            return freeRangeAddress;
          }
        }
        dirIdx := dirIdx + 1;
      }
      if DirIndex(searchStart) < DirIndex(rangeEnd) {
        ScanEnd(s.pages, from, end / ENTRIES * ENTRIES, freeRange, n);
      }
      return NPOS;
    }

    /** The inner loop over one table, from entry `first` on. */
    method ScanTable(dirIdx: nat, first: nat, range: nat, run: nat, addr: nat, ghost from: nat, ghost end: nat)
      returns (found: bool, freeRange: nat, freeRangeAddress: nat)
      requires Valid() && dirIdx in directory && first <= ENTRIES && dirIdx * ENTRIES + ENTRIES <= end <= SELF * ENTRIES
      requires Scanned(View().pages, from, dirIdx * ENTRIES + first, run, AtLeastOne(range))
      requires run > 0 ==> addr == (dirIdx * ENTRIES + first - run) * PAGE_SIZE
      ensures found ==> var i := FirstFit(View().pages, from, end, AtLeastOne(range));
                        i < FRAMES && freeRangeAddress == i * PAGE_SIZE
      ensures !found ==> Scanned(View().pages, from, dirIdx * ENTRIES + ENTRIES, freeRange, AtLeastOne(range))
      ensures !found && freeRange > 0 ==> freeRangeAddress == (dirIdx * ENTRIES + ENTRIES - freeRange) * PAGE_SIZE
    {
      ghost var pages := View().pages;
      freeRange, freeRangeAddress := run, addr;
      var tableIdx := first;
      while tableIdx < ENTRIES
        invariant first <= tableIdx <= ENTRIES
        invariant Scanned(pages, from, dirIdx * ENTRIES + tableIdx, freeRange, AtLeastOne(range))
        invariant freeRange > 0 ==> freeRangeAddress == (dirIdx * ENTRIES + tableIdx - freeRange) * PAGE_SIZE
      {
        var page := dirIdx * ENTRIES + tableIdx;
        EntryCounts(directory, tables, dirIdx, tableIdx);
        if page !in tables {
          if freeRange == 0 {
            freeRangeAddress := PageAddress(dirIdx, tableIdx);
          }
          ScanFree(pages, from, page, freeRange, 1, AtLeastOne(range), end);
          freeRange := freeRange + 1;
          if freeRange >= range {
            return true, freeRange, freeRangeAddress;
          }
        } else {
          ScanMapped(pages, from, page, freeRange, AtLeastOne(range));
          freeRange := 0;
        }
        tableIdx := tableIdx + 1;
      }
      return false, freeRange, freeRangeAddress;
    }

    method MapPhysicalToVirtual(paddr: Word, vaddr: Word, flags: Flags) returns (outcome: Outcome)
      requires Valid()
      modifies this`directory, this`tables, physical.memory.words
      ensures Result(View(), outcome) == MapPage(old(View()), paddr / PAGE_SIZE, vaddr / PAGE_SIZE, flags)
      ensures outcome == Done ==>
                var page, now := vaddr / PAGE_SIZE, View().pages;
                && page !in old(View()).pages && page in now && now[page].frame == paddr / PAGE_SIZE
                && now[page].readWrite == !flags.readOnly && now[page].usermode == flags.usermode
                && now[page].writeThrough == flags.writeThrough && now[page].cacheDisable == flags.cacheDisable
    {
      var d, entry := DirIndex(vaddr), DirIndex(vaddr) * ENTRIES + TableIndex(vaddr);
      if d == SELF {
        // its table is the directory
        return if d in directory && TableIndex(vaddr) in directory then InUsePanic else DirectoryWrite;
      }
      if d !in directory {
        var table := physical.GetPage();
        if table == OutOfMemory {
          return NoFrames;
        }
        ClearedTableShowsNothing(directory, tables, d, table.address / PAGE_SIZE);
        directory := directory[d := table.address / PAGE_SIZE];
        tables := Cleared(tables, d);
      }
      if entry in tables {
        return InUsePanic;
      }
      var e := Entry(paddr / PAGE_SIZE, true, false, false, false);
      if flags.readOnly {
        e := e.(readWrite := false);
      }
      if flags.usermode {
        e := e.(usermode := true);
      }
      if flags.writeThrough {
        e := e.(writeThrough := true);
      }
      if flags.cacheDisable {
        e := e.(cacheDisable := true);
      }
      EntryShows(directory, tables, entry, e);
      tables := tables[entry := e];
      return Done;
    }

    /** One round of the loop of `map`, with `count` pages to go. */
    method MapNextPage(vaddr: Word, ghost page: nat, ghost count: nat, flags: Flags) returns (outcome: Outcome)
      requires Valid() && count > 0 && page == vaddr / PAGE_SIZE
      modifies this`directory, this`tables, physical.memory.words
      ensures MapPages(old(View()), page, count, flags)
           == if outcome != Done then Result(View(), outcome) else MapPages(View(), (page + 1) % FRAMES, count - 1, flags)
    {
      MapPagesStep(View(), page, count, flags);
      outcome := MapToFreeFrame(vaddr, flags);
    }

    method MapToFreeFrame(vaddr: Word, flags: Flags) returns (outcome: Outcome)
      requires Valid()
      modifies this`directory, this`tables, physical.memory.words
      ensures Result(View(), outcome) == MapNext(old(View()), vaddr / PAGE_SIZE, flags)
    {
      var page := physical.GetPage();
      if page == OutOfMemory {
        return NoFrames;
      }
      outcome := MapPhysicalToVirtual(page.address, vaddr, flags);
    }

    /** `map` without a wish where. The address returned is the one behind the last page mapped. */
    method Map(size: Word, flags: Flags) returns (outcome: Outcome, addr: nat)
      requires Valid()
      modifies this`directory, this`tables, physical.memory.words
      ensures var count := (size + PAGE_SIZE - 1) % ADDRESS_SPACE / PAGE_SIZE;
              var start, end := searchStart / PAGE_SIZE, rangeEnd / PAGE_SIZE;
              var i := Found(old(View()), start, end, count);
              && Result(View(), outcome) == MapAuto(old(View()), start, end, count, flags)
              && (outcome == Done ==> addr == Behind(i, count))
              && (WellBacked(old(View())) && i != NPOS && outcome == Done ==> MapsRun(old(View()), View(), i, count, flags))
    {
      var count := (size + PAGE_SIZE - 1) % ADDRESS_SPACE / PAGE_SIZE;
      outcome, addr := MapCount(count, flags);
    }

    /** The request once its size is in pages. */
    method MapCount(count: nat, flags: Flags) returns (outcome: Outcome, addr: nat)
      requires Valid()
      modifies this`directory, this`tables, physical.memory.words
      ensures var start, end := searchStart / PAGE_SIZE, rangeEnd / PAGE_SIZE;
              var i := Found(old(View()), start, end, count);
              && Result(View(), outcome) == MapAuto(old(View()), start, end, count, flags)
              && (outcome == Done ==> addr == Behind(i, count))
              && (WellBacked(old(View())) && i != NPOS && outcome == Done ==> MapsRun(old(View()), View(), i, count, flags))
    {
      var vaddr := FindFirstFreePageRange(count);
      ghost var start, end := searchStart / PAGE_SIZE, rangeEnd / PAGE_SIZE;
      FoundInside(View(), start, end, count);
      FoundAddress(Found(View(), start, end, count), vaddr, count);
      MapAutoMapsRun(View(), start, end, count, flags);
      outcome, addr := MapRun(vaddr, count, flags);
    }

    /** The loop of `map`. */
    method MapRun(first: Word, count: nat, flags: Flags) returns (outcome: Outcome, addr: nat)
      requires Valid()
      modifies this`directory, this`tables, physical.memory.words
      ensures Result(View(), outcome) == MapPages(old(View()), first / PAGE_SIZE, count, flags)
      ensures outcome == Done ==> addr == Advance(first, count)
    {
      var vaddr := first;
      ghost var page := vaddr / PAGE_SIZE;
      ghost var whole := MapPages(View(), page, count, flags);
      var i := 0;
      while i < count
        invariant 0 <= i <= count && vaddr == Advance(first, i) && page == vaddr / PAGE_SIZE
        invariant whole == MapPages(View(), page, count - i, flags)
      {
        var step := MapNextPage(vaddr, page, count - i, flags);
        if step != Done {
          return step, 0;
        }
        AdvanceByOne(first, i);
        vaddr := Advance(vaddr, 1);
        page := (page + 1) % FRAMES;
        i := i + 1;
      }
      return Done, vaddr;
    }

    /** The address of the frame a page is mapped to; the offset into the page is not part of it. Under the last
        directory entry the pages are the tables. */
    method VirtualToPhysical(vaddr: Word) returns (found: bool, paddr: nat)
      requires Valid()
      ensures var page, s := vaddr / PAGE_SIZE, View();
              if page / ENTRIES != SELF then
                (found <==> page in s.pages) && (found ==> paddr == s.pages[page].frame * PAGE_SIZE)
              else
                && (found <==> SELF in s.tables && page % ENTRIES in s.tables)
                && (found ==> paddr == s.tables[page % ENTRIES] * PAGE_SIZE)
    {
      var d, e := DirIndex(vaddr), TableIndex(vaddr);
      if d !in directory {
        return false, 0;
      }
      if d == SELF {
        if e !in directory {
          return false, 0;
        }
        return true, directory[e] * PAGE_SIZE;
      }
      if d * ENTRIES + e !in tables {
        return false, 0;
      }
      return true, tables[d * ENTRIES + e].frame * PAGE_SIZE;
    }

    /** When the search answers in front of the range of this manager. */
    lemma SearchBelowRange(range: nat)
      requires Valid()
      ensures var start, end, n := searchStart / PAGE_SIZE, rangeEnd / PAGE_SIZE, AtLeastOne(range);
              var d := start / ENTRIES;
              Found(View(), start, end, range) < start <==>
                && start % ENTRIES != 0 && d < end / ENTRIES && d !in directory
                && d * ENTRIES + n <= end / ENTRIES * ENTRIES && FreeRun(View().pages, d * ENTRIES, n)
    {
      VisibleIsTabled(directory, tables, physical.Used());
      BelowTheRange(View(), searchStart / PAGE_SIZE, rangeEnd / PAGE_SIZE, range);
    }
  }
}
