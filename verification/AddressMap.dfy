/** What the virtual memory manager is for: one flat map from pages to frames, in which runs of unmapped
    pages are searched first fit and mapped to free frames. The only trace of the two-level tables is
    which of the 1024-page tables exist, since each takes a frame of its own. */
module AddressMap {
  import opened Bitsets
  import opened PageRuns
  import opened Physical

  const ENTRIES: nat := 1024
  /** The last directory entry is meant to point to the directory, which so is its own last table: entry e
      of that table is directory entry e. */
  const SELF: nat := 1023

  /** `MapFlags`, one field for each flag. */
  datatype Flags = Flags(readOnly: bool, usermode: bool, writeThrough: bool, cacheDisable: bool)

  /** A present table entry. */
  datatype Entry = Entry(frame: nat, readWrite: bool, usermode: bool, writeThrough: bool, cacheDisable: bool)

  function MakeEntry(frame: nat, flags: Flags): Entry {
    Entry(frame, !flags.readOnly, flags.usermode, flags.writeThrough, flags.cacheDisable)
  }

  /** The mapped pages under the first 1023 directory entries, the frames of the existing tables, the
      directory among them as number 1023, and which frames are in use. */
  datatype Space = Space(pages: map<nat, Entry>, tables: map<nat, nat>, used: seq<bool>)

  // ---------- Searching ----------

  /** First fit: the lowest page from `from` on with n unmapped pages in front of `end`, or NPOS. */
  function FirstFit(pages: map<nat, Entry>, from: nat, end: nat, n: nat): (i: nat)
    requires end <= FRAMES
    ensures i != NPOS ==> from <= i && i + n <= end && FreeRun(pages, i, n)
    ensures i != NPOS ==> forall j :: from <= j < i ==> !FreeRun(pages, j, n)
    ensures i == NPOS ==> forall j :: from <= j && j + n <= end ==> !FreeRun(pages, j, n)
    decreases end - from
  {
    if from + n > end then NPOS else if FreeRun(pages, from, n) then from else FirstFit(pages, from + 1, end, n)
  }

  /** What the scan knows at page pos: the last `run` pages are unmapped, too few to answer, and no
      run long enough starts in front of them. */
  ghost predicate Scanned(pages: map<nat, Entry>, from: nat, pos: nat, run: nat, n: nat) {
    && from + run <= pos && run < n
    && FreeRun(pages, pos - run, run)
    && forall j :: from <= j < pos - run ==> !FreeRun(pages, j, n)
  }

  lemma ScanMapped(pages: map<nat, Entry>, from: nat, pos: nat, run: nat, n: nat)
    requires Scanned(pages, from, pos, run, n) && pos in pages
    ensures Scanned(pages, from, pos + 1, 0, n)
  {
  }

  /** k more unmapped pages either answer the search or lengthen the run. */
  lemma ScanFree(pages: map<nat, Entry>, from: nat, pos: nat, run: nat, k: nat, n: nat, end: nat)
    requires Scanned(pages, from, pos, run, n) && FreeRun(pages, pos, k) && pos + k <= end <= FRAMES
    ensures if run + k >= n then FirstFit(pages, from, end, n) == pos - run else Scanned(pages, from, pos + k, run + k, n)
  {
    assert FreeRun(pages, pos - run, run + k);
    if run + k >= n {
      assert FreeRun(pages, pos - run, n);
    }
  }

  lemma ScanEnd(pages: map<nat, Entry>, from: nat, end: nat, run: nat, n: nat)
    requires Scanned(pages, from, end, run, n) && end <= FRAMES
    ensures FirstFit(pages, from, end, n) == NPOS
  {
  }

  /** The part of the address space under a missing table is searched as a whole, from its first page on,
      even when the range starts in its middle. */
  function EffectiveStart(s: Space, start: nat, end: nat): nat {
    if start / ENTRIES < end / ENTRIES && start / ENTRIES !in s.tables then start / ENTRIES * ENTRIES else start
  }

  function AtLeastOne(n: nat): nat {
    if n == 0 then 1 else n
  }

  /** What the search finds in the pages from `start` to `end`. */
  function Found(s: Space, start: nat, end: nat, range: nat): nat
    requires end < FRAMES
  {
    FirstFit(s.pages, EffectiveStart(s, start, end), end / ENTRIES * ENTRIES, AtLeastOne(range))
  }

  /** For a range of whole tables the search is first fit on the flat map. */
  lemma AlignedSearch(s: Space, start: nat, end: nat, range: nat)
    requires end < FRAMES && start % ENTRIES == 0 && end % ENTRIES == 0
    ensures Found(s, start, end, range) == FirstFit(s.pages, start, end, AtLeastOne(range))
  {
  }

  /** With an end inside a table the search misses a run exactly when the first run in the whole range does
      not end with the last whole table. */
  lemma UnalignedEnd(s: Space, start: nat, end: nat, range: nat)
    requires end < FRAMES
    ensures var n := AtLeastOne(range);
            var i := FirstFit(s.pages, EffectiveStart(s, start, end), end, n);
            && (Found(s, start, end, range) == NPOS && i != NPOS <==> i != NPOS && end / ENTRIES * ENTRIES < i + n)
            && (Found(s, start, end, range) != NPOS ==> Found(s, start, end, range) == i)
  {
    var n, from := AtLeastOne(range), EffectiveStart(s, start, end);
    var i, found := FirstFit(s.pages, from, end, n), Found(s, start, end, range);
    if i != NPOS {
      assert FreeRun(s.pages, i, n);
    }
    if found != NPOS {
      assert FreeRun(s.pages, found, n) && from <= found;
      assert i != NPOS;
      assert FreeRun(s.pages, i, n);
    }
  }

  /** No page under a missing table is mapped. */
  ghost predicate Tabled(s: Space) {
    forall p :: p in s.pages ==> p / ENTRIES in s.tables
  }

  /** The search finds nothing although the range holds a run. */
  predicate Misses(s: Space, start: nat, end: nat, range: nat)
    requires end < FRAMES
  {
    Found(s, start, end, range) == NPOS && FirstFit(s.pages, start, end, AtLeastOne(range)) != NPOS
  }

  function Filled<T>(n: nat, value: T): (m: map<nat, T>)
    ensures forall i: nat :: i in m <==> i < n
  {
    if n == 0 then map[] else Filled(n - 1, value)[n - 1 := value]
  }

  /** All tables exist and every page but the last n in front of `end` is mapped. */
  function OnlyTheEndFree(end: nat, n: nat, e: Entry): Space
    requires n <= end
  {
    Space(Filled(end - n, e), Filled(ENTRIES, 0), [])
  }

  lemma EndMissed(start: nat, end: nat, range: nat, e: Entry)
    requires end < FRAMES && end % ENTRIES != 0 && start + AtLeastOne(range) <= end
    ensures var s := OnlyTheEndFree(end, AtLeastOne(range), e); Tabled(s) && Misses(s, start, end, range)
  {
    var n := AtLeastOne(range);
    var s := OnlyTheEndFree(end, n, e);
    assert EffectiveStart(s, start, end) == start;
    assert FreeRun(s.pages, end - n, n);
    forall j | 0 <= j && j + n <= end / ENTRIES * ENTRIES
      ensures !FreeRun(s.pages, j, n)
    {
      assert j in s.pages;
    }
  }

  /** Whether the search can miss a run of the range is up to the range: it can exactly when the range ends
      inside a table and is long enough for the request. */
  lemma MissesIff(start: nat, end: nat, range: nat)
    requires end < FRAMES
    ensures (exists s :: Tabled(s) && Misses(s, start, end, range))
            <==> end % ENTRIES != 0 && start + AtLeastOne(range) <= end
  {
    if end % ENTRIES != 0 && start + AtLeastOne(range) <= end {
      EndMissed(start, end, range, Entry(0, true, false, false, false));
    }
    forall s | Misses(s, start, end, range)
      ensures end % ENTRIES != 0 && start + AtLeastOne(range) <= end
    {
      var i := FirstFit(s.pages, start, end, AtLeastOne(range));
      assert EffectiveStart(s, start, end) <= start <= i;
    }
  }

  /** The search answers with a page in front of the range exactly when the range starts inside a missing
      table and the run from the first page under that table is long enough. */
  lemma BelowTheRange(s: Space, start: nat, end: nat, range: nat)
    requires start <= FRAMES && end < FRAMES && Tabled(s)
    ensures var d, n, i := start / ENTRIES, AtLeastOne(range), Found(s, start, end, range);
            i < start <==> && start % ENTRIES != 0 && d < end / ENTRIES && d !in s.tables
                           && d * ENTRIES + n <= end / ENTRIES * ENTRIES && FreeRun(s.pages, d * ENTRIES, n)
  {
    var d, n, i := start / ENTRIES, AtLeastOne(range), Found(s, start, end, range);
    var first := d * ENTRIES;
    if i != NPOS && i < start {
      assert first <= i < first + ENTRIES;
      assert FreeRun(s.pages, first, n) by {
        forall p | first <= p < first + n
          ensures p !in s.pages
        {
          if p < first + ENTRIES {
            assert p / ENTRIES == d;
          } else {
            assert i <= p < i + n;
          }
        }
      }
    }
    if d < end / ENTRIES && d !in s.tables && first + n <= end / ENTRIES * ENTRIES && FreeRun(s.pages, first, n) {
      assert EffectiveStart(s, start, end) == first;
      assert i != NPOS && i <= first;
    }
  }

  /** With nothing mapped, a search from page 1 on answers page 0. */
  lemma AnswersBelow(used: seq<bool>)
    ensures var s := Space(map[], map[], used); Tabled(s) && Found(s, 1, ENTRIES, 1) == 0
  {
  }

  // ---------- Mapping ----------

  /** `DirectoryWrite` stands for a write through the last directory entry, where the model stops. */
  datatype Outcome = Done | NoFrames | InUsePanic | DirectoryWrite

  datatype Result = Result(space: Space, outcome: Outcome)

  function TakeFrame(s: Space): Space {
    var f := FirstFree(s.used);
    if f == |s.used| then s else s.(used := s.used[f := true])
  }

  function SetEntry(s: Space, frame: nat, page: nat, flags: Flags): Result {
    if page in s.pages then Result(s, InUsePanic)
    else Result(s.(pages := s.pages[page := MakeEntry(frame, flags)]), Done)
  }

  /** Maps a page to a frame; a missing table first gets the lowest free frame. The entries of the last
      table are those of the directory. */
  function MapPage(s: Space, frame: nat, page: nat, flags: Flags): Result {
    var d, t := page / ENTRIES, FirstFree(s.used);
    if d == SELF then Result(s, if SELF in s.tables && page % ENTRIES in s.tables then InUsePanic else DirectoryWrite)
    else if d in s.tables then SetEntry(s, frame, page, flags)
    else if t == |s.used| then Result(s, NoFrames)
    else SetEntry(TakeFrame(s).(tables := s.tables[d := t]), frame, page, flags)
  }

  /** The lowest free frame is taken, then mapped. */
  function MapNext(s: Space, page: nat, flags: Flags): Result {
    var f := FirstFree(s.used);
    if f == |s.used| then Result(s, NoFrames) else MapPage(TakeFrame(s), f, page, flags)
  }

  /** Runs a step on `count` pages from `page` on; a panic ends it. Addresses wrap at the end of the
      address space. */
  function Repeat(step: (Space, nat) -> Result, s: Space, page: nat, count: nat): Result
    decreases count
  {
    if count == 0 then Result(s, Done)
    else
      var r := step(s, page);
      if r.outcome != Done then r else Repeat(step, r.space, (page + 1) % FRAMES, count - 1)
  }

  function Mapper(flags: Flags): (Space, nat) -> Result {
    (s: Space, page: nat) => MapNext(s, page, flags)
  }

  /** Maps a run of pages. */
  function MapPages(s: Space, page: nat, count: nat, flags: Flags): Result {
    Repeat(Mapper(flags), s, page, count)
  }

  // ---------- Who holds a frame ----------

  datatype Holder = PageOf(page: nat) | TableOf(index: nat)

  predicate Holds(s: Space, h: Holder) {
    match h
    case PageOf(p) => p in s.pages
    case TableOf(d) => d in s.tables
  }

  function FrameOf(s: Space, h: Holder): nat
    requires Holds(s, h)
  {
    match h
    case PageOf(p) => s.pages[p].frame
    case TableOf(d) => s.tables[d]
  }

  predicate InUse(s: Space, h: Holder) {
    Holds(s, h) ==> FrameOf(s, h) < |s.used| && s.used[FrameOf(s, h)]
  }

  predicate Separate(s: Space, x: Holder, y: Holder) {
    Holds(s, x) && Holds(s, y) && x != y ==> FrameOf(s, x) != FrameOf(s, y)
  }

  /** Every mapped frame and every table frame is in use, and no two of them are the same frame. */
  ghost predicate WellBacked(s: Space) {
    && |s.used| == FRAMES
    && (forall h :: InUse(s, h)) && (forall x, y :: Separate(s, x, y))
  }

  type Backed = s: Space | WellBacked(s) ghost witness Space(map[], map[], seq(FRAMES, _ => true))

  predicate NotHeldBy(s: Space, f: nat, h: Holder) {
    Holds(s, h) ==> FrameOf(s, h) != f
  }

  /** Frame f is in use, but nobody holds it yet. */
  ghost predicate Spare(s: Space, f: nat) {
    f < |s.used| && s.used[f] && forall h :: NotHeldBy(s, f, h)
  }

  /** `taker` and nobody else is a holder more, or holds another frame. */
  ghost predicate Grants(was: Space, now: Space, taker: Holder, f: nat) {
    && now.used == was.used && Holds(now, taker) && FrameOf(now, taker) == f
    && forall h :: h != taker && Holds(now, h) ==> Holds(was, h) && FrameOf(now, h) == FrameOf(was, h)
  }

  lemma GrantKeeps(was: Backed, now: Space, taker: Holder, f: nat)
    requires Spare(was, f) && Grants(was, now, taker, f)
    ensures WellBacked(now)
  {
    forall h
      ensures InUse(now, h)
    {
      assert InUse(was, h);
    }
    forall x, y
      ensures Separate(now, x, y)
    {
      assert Separate(was, x, y) && NotHeldBy(was, f, x) && NotHeldBy(was, f, y);
    }
  }

  lemma SpareKept(was: Space, now: Space, taker: Holder, f: nat, g: nat)
    requires Spare(was, g) && Grants(was, now, taker, f) && f != g
    ensures Spare(now, g)
  {
    forall h
      ensures NotHeldBy(now, g, h)
    {
      assert NotHeldBy(was, g, h);
    }
  }

  /** A frame just taken from the allocator is spare; a spare frame stays spare. */
  lemma TakeFrameKeeps(s: Backed)
    requires FirstFree(s.used) < |s.used|
    ensures WellBacked(TakeFrame(s)) && Spare(TakeFrame(s), FirstFree(s.used))
    ensures forall g :: Spare(s, g) ==> Spare(TakeFrame(s), g)
  {
    var s', f := TakeFrame(s), FirstFree(s.used);
    forall h
      ensures InUse(s', h) && NotHeldBy(s', f, h)
    {
      assert InUse(s, h);
    }
    forall x, y
      ensures Separate(s', x, y)
    {
      assert Separate(s, x, y);
    }
    forall g | Spare(s, g)
      ensures Spare(s', g)
    {
      forall h
        ensures NotHeldBy(s', g, h)
      {
        assert NotHeldBy(s, g, h);
      }
    }
  }

  /** One round maps one page to the lowest free frame; only memory can fail. */
  lemma MapNextKeeps(s: Backed, page: nat, flags: Flags)
    requires page !in s.pages && page / ENTRIES != SELF
    ensures var r, f := MapNext(s, page, flags), FirstFree(s.used);
            && (r.outcome == Done || r.outcome == NoFrames)
            && (r.outcome == Done ==>
                && WellBacked(r.space) && f < FRAMES
                && r.space.tables.Keys == s.tables.Keys + {page / ENTRIES}
                && r.space.pages == s.pages[page := MakeEntry(f, flags)])
  {
    var f, d := FirstFree(s.used), page / ENTRIES;
    if f < |s.used| {
      TakeFrameKeeps(s);
      var s1 := TakeFrame(s);
      var t := FirstFree(s1.used);
      if d in s.tables {
        var s2 := SetEntry(s1, f, page, flags).space;
        assert Grants(s1, s2, PageOf(page), f);
        GrantKeeps(s1, s2, PageOf(page), f);
      } else if t < |s1.used| {
        TakeFrameKeeps(s1);
        var s2 := TakeFrame(s1);
        var s3 := s2.(tables := s2.tables[d := t]);
        assert Grants(s2, s3, TableOf(d), t);
        GrantKeeps(s2, s3, TableOf(d), t);
        SpareKept(s2, s3, TableOf(d), t, f);
        var s4 := SetEntry(s3, f, page, flags).space;
        assert Grants(s3, s4, PageOf(page), f);
        GrantKeeps(s3, s4, PageOf(page), f);
      }
    }
  }

  /** The frames one round takes: one for the page, and one for its table when there is none. */
  function Cost(s: Space, page: nat): nat {
    if page / ENTRIES in s.tables then 1 else 2
  }

  lemma MapNextCost(s: Space, page: nat, flags: Flags)
    requires page !in s.pages && page / ENTRIES != SELF
    ensures var r := MapNext(s, page, flags);
            && (r.outcome == Done <==> FreeCount(s.used) >= Cost(s, page))
            && (r.outcome == Done ==>
                && |r.space.used| == |s.used| && FreeCount(r.space.used) == FreeCount(s.used) - Cost(s, page)
                && forall g :: 0 <= g < |s.used| && s.used[g] ==> r.space.used[g])
  {
    NoneFree(s.used);
    var f := FirstFree(s.used);
    if f < |s.used| {
      TakenCount(s.used, f);
      var s1 := TakeFrame(s);
      NoneFree(s1.used);
      if FirstFree(s1.used) < |s1.used| {
        TakenCount(s1.used, FirstFree(s1.used));
      }
    }
  }

  // ---------- A whole run ----------

  /** The tables a run of pages needs and does not have. */
  function MissingTables(tables: set<nat>, page: nat, count: nat): set<nat> {
    set d: nat | page / ENTRIES <= d <= (page + count - 1) / ENTRIES && d !in tables
  }

  lemma MissingNext(tables: set<nat>, page: nat, count: nat)
    requires count > 0
    ensures var d, rest := page / ENTRIES, MissingTables(tables + {page / ENTRIES}, page + 1, count - 1);
            && d !in rest && (count == 1 ==> rest == {})
            && MissingTables(tables, page, count) == rest + if d in tables then {} else {d}
  {
    var d, rest := page / ENTRIES, MissingTables(tables + {page / ENTRIES}, page + 1, count - 1);
    var all := MissingTables(tables, page, count);
    assert count == 1 ==> (page + 1 + (count - 1) - 1) / ENTRIES == d;
    forall e: nat
      ensures e in all <==> e in rest || (e == d && d !in tables)
    {
    }
  }

  /** The frames that `count` pages from `page` on take: one each, and one for each missing table. */
  function Needed(tables: set<nat>, page: nat, count: nat): nat {
    if count == 0 then 0 else count + |MissingTables(tables, page, count)|
  }

  lemma NeededNext(s: Space, page: nat, count: nat)
    requires count > 0
    ensures Needed(s.tables.Keys, page, count) == Cost(s, page) + Needed(s.tables.Keys + {page / ENTRIES}, page + 1, count - 1)
  {
    MissingNext(s.tables.Keys, page, count);
  }

  /** The rights of an entry are those asked for: writable without the read-only flag, and open to user mode,
      written through and not cached exactly with the flag for it. */
  predicate Permits(e: Entry, flags: Flags) {
    && (e.readWrite <==> !flags.readOnly) && (e.usermode <==> flags.usermode)
    && (e.writeThrough <==> flags.writeThrough) && (e.cacheDisable <==> flags.cacheDisable)
  }

  /** Page p of a run just mapped: its frame was free and is in use, its rights are those asked for. */
  predicate FreshPage(was: Space, now: Space, p: nat, flags: Flags) {
    && p in now.pages && now.pages[p].frame < |was.used| == |now.used|
    && !was.used[now.pages[p].frame] && now.used[now.pages[p].frame] && Permits(now.pages[p], flags)
  }

  predicate SamePage(was: Space, now: Space, p: nat) {
    (p in now.pages <==> p in was.pages) && (p in was.pages ==> now.pages[p] == was.pages[p])
  }

  predicate StaysUsed(was: Space, now: Space, g: nat) {
    g < |was.used| == |now.used| && was.used[g] ==> now.used[g]
  }

  /** One page more is mapped, everything else as before. */
  ghost predicate OneMore(was: Space, now: Space, page: nat, flags: Flags) {
    && WellBacked(now) && FreshPage(was, now, page, flags)
    && (forall p: nat :: p != page ==> SamePage(was, now, p)) && (forall g: nat :: StaysUsed(was, now, g))
    && now.tables.Keys == was.tables.Keys + {page / ENTRIES}
    && FreeCount(now.used) == FreeCount(was.used) - Cost(was, page)
  }

  /** A step maps an unmapped page when the frames suffice, and fails on memory when they do not. */
  ghost predicate MapsOne(step: (Space, nat) -> Result, flags: Flags, s: Space, page: nat) {
    WellBacked(s) && page !in s.pages && page / ENTRIES != SELF ==>
      var r := step(s, page);
      if FreeCount(s.used) >= Cost(s, page) then r.outcome == Done && OneMore(s, r.space, page, flags)
      else r.outcome == NoFrames
  }

  lemma MapperMapsOne(flags: Flags, s: Space, page: nat)
    ensures MapsOne(Mapper(flags), flags, s, page)
  {
    if WellBacked(s) && page !in s.pages && page / ENTRIES != SELF {
      MapNextKeeps(s, page, flags);
      MapNextCost(s, page, flags);
    }
  }

  lemma RestIsFree(was: Space, now: Space, page: nat, count: nat, flags: Flags)
    requires OneMore(was, now, page, flags) && FreeRun(was.pages, page, count) && count > 0
    ensures FreeRun(now.pages, page + 1, count - 1)
  {
    forall p | page + 1 <= p < page + count
      ensures p !in now.pages
    {
      assert SamePage(was, now, p);
    }
  }

  /** Mapping a run of unmapped pages never finds one in use; it leaves every page outside the run and
      every frame in use as they were, and keeps all frames apart. */
  lemma {:induction false} RunKeeps(step: (Space, nat) -> Result, s: Backed, page: nat, count: nat, flags: Flags,
                                             p: nat, g: nat)
    requires forall t: Space, q: nat :: MapsOne(step, flags, t, q)
    requires page + count <= SELF * ENTRIES && FreeRun(s.pages, page, count)
    ensures var r := Repeat(step, s, page, count);
            && (r.outcome == Done || r.outcome == NoFrames)
            && (r.outcome == Done ==> WellBacked(r.space) && StaysUsed(s, r.space, g))
            && (r.outcome == Done && !(page <= p < page + count) ==> SamePage(s, r.space, p))
    decreases count
  {
    if count > 0 {
      assert MapsOne(step, flags, s, page);
      var r := step(s, page);
      if r.outcome == Done {
        RestIsFree(s, r.space, page, count, flags);
        assert StaysUsed(s, r.space, g) && (p != page ==> SamePage(s, r.space, p));
        if count > 1 {
          RunKeeps(step, r.space, page + 1, count - 1, flags, p, g);
        }
      }
    }
  }

  /** Every page of the run is mapped, to a frame that was free. */
  lemma {:induction false} RunFresh(step: (Space, nat) -> Result, s: Backed, page: nat, count: nat, flags: Flags,
                                             p: nat)
    requires forall t: Space, q: nat :: MapsOne(step, flags, t, q)
    requires page + count <= SELF * ENTRIES && FreeRun(s.pages, page, count) && page <= p < page + count
    ensures var r := Repeat(step, s, page, count);
            r.outcome == Done ==> FreshPage(s, r.space, p, flags)
    decreases count
  {
    assert MapsOne(step, flags, s, page);
    var r := step(s, page);
    if r.outcome == Done && count > 1 {
      RestIsFree(s, r.space, page, count, flags);
      if p > page {
        RunFresh(step, r.space, page + 1, count - 1, flags, p);
        var rest := Repeat(step, r.space, page + 1, count - 1);
        if rest.outcome == Done {
          assert StaysUsed(s, r.space, rest.space.pages[p].frame);
        }
      } else {
        RunKeeps(step, r.space, page + 1, count - 1, flags, page, r.space.pages[page].frame);
      }
    }
  }

  /** It succeeds exactly when the free frames cover the pages and the missing tables, and takes just those. */
  lemma {:induction false} RunCost(step: (Space, nat) -> Result, s: Backed, page: nat, count: nat, flags: Flags)
    requires forall t: Space, q: nat :: MapsOne(step, flags, t, q)
    requires page + count <= SELF * ENTRIES && FreeRun(s.pages, page, count)
    ensures var r := Repeat(step, s, page, count);
            && (r.outcome == Done <==> FreeCount(s.used) >= Needed(s.tables.Keys, page, count))
            && (r.outcome == Done ==> FreeCount(r.space.used) == FreeCount(s.used) - Needed(s.tables.Keys, page, count))
    decreases count
  {
    if count > 0 {
      assert MapsOne(step, flags, s, page);
      NeededNext(s, page, count);
      var r := step(s, page);
      if r.outcome == Done && count > 1 {
        RestIsFree(s, r.space, page, count, flags);
        RunCost(step, r.space, page + 1, count - 1, flags);
      }
    }
  }

  // ---------- A request ----------

  /** The unmapped run that a search found may be mapped. */
  lemma FoundRun(s: Space, start: nat, end: nat, count: nat)
    requires end < FRAMES && Found(s, start, end, count) != NPOS
    ensures var i := Found(s, start, end, count);
            i + count <= SELF * ENTRIES && FreeRun(s.pages, i, count)
  {
  }

  /** A request for `count` pages without a wish where: the search, then the mapping. When nothing is found
      the address NPOS is mapped all the same, which is the last page of the address space. */
  function MapAuto(s: Space, start: nat, end: nat, count: nat, flags: Flags): Result
    requires end < FRAMES
  {
    var i := Found(s, start, end, count);
    MapPages(s, if i == NPOS then FRAMES - 1 else i, count, flags)
  }

  /** Exactly the pages of the run, which were unmapped, become mapped. */
  ghost predicate MapsRun(was: Space, now: Space, i: nat, count: nat, flags: Flags) {
    && (forall p: nat | i <= p < i + count :: p !in was.pages && FreshPage(was, now, p, flags))
    && (forall p: nat | !(i <= p < i + count) :: SamePage(was, now, p))
  }

  /** With a run found: no page of it is in use, all of it is mapped to frames that were free, nothing else
      moves, frames stay apart, and only a shortage of frames can fail, exactly when they do not cover the
      pages and their missing tables. */
  lemma MapAutoMaps(s: Backed, start: nat, end: nat, count: nat, flags: Flags)
    requires end < FRAMES && Found(s, start, end, count) != NPOS
    ensures var i, r := Found(s, start, end, count), MapAuto(s, start, end, count, flags);
            && (r.outcome == Done || r.outcome == NoFrames)
            && (r.outcome == Done <==> FreeCount(s.used) >= Needed(s.tables.Keys, i, count))
            && (r.outcome == Done ==>
                && WellBacked(r.space)
                && FreeCount(r.space.used) == FreeCount(s.used) - Needed(s.tables.Keys, i, count)
                && MapsRun(s, r.space, i, count, flags)
                && (forall g: nat :: StaysUsed(s, r.space, g)))
  {
    var i, r, step := Found(s, start, end, count), MapAuto(s, start, end, count, flags), Mapper(flags);
    FoundRun(s, start, end, count);
    forall t: Space, q: nat
      ensures MapsOne(step, flags, t, q)
    {
      MapperMapsOne(flags, t, q);
    }
    RunCost(step, s, i, count, flags);
    RunKeeps(step, s, i, count, flags, 0, 0);
    if r.outcome == Done {
      forall p: nat | i <= p < i + count
        ensures p !in s.pages && FreshPage(s, r.space, p, flags)
      {
        RunFresh(step, s, i, count, flags, p);
      }
      forall p: nat | !(i <= p < i + count)
        ensures SamePage(s, r.space, p)
      {
        RunKeeps(step, s, i, count, flags, p, 0);
      }
      forall g: nat
        ensures StaysUsed(s, r.space, g)
      {
        RunKeeps(step, s, i, count, flags, 0, g);
      }
    }
  }

  lemma MapAutoMapsRun(s: Space, start: nat, end: nat, count: nat, flags: Flags)
    requires end < FRAMES
    ensures var i, r := Found(s, start, end, count), MapAuto(s, start, end, count, flags);
            WellBacked(s) && i != NPOS && r.outcome == Done ==> MapsRun(s, r.space, i, count, flags)
  {
    if WellBacked(s) && Found(s, start, end, count) != NPOS {
      MapAutoMaps(s, start, end, count, flags);
    }
  }

  /** What a successful request is for, page by page: a page of the run was unmapped and now has a frame that was
      free and is in use, writable unless read-only was asked for, and open to user mode, written through and
      not cached exactly as asked; every other page has the frame and the rights it had, or none. */
  lemma MapAutoGrants(s: Backed, start: nat, end: nat, count: nat, flags: Flags, p: nat)
    requires end < FRAMES && Found(s, start, end, count) != NPOS && MapAuto(s, start, end, count, flags).outcome == Done
    ensures var i, r := Found(s, start, end, count), MapAuto(s, start, end, count, flags).space;
            if i <= p < i + count then
              && p !in s.pages && p in r.pages
              && r.pages[p].frame < |s.used| && !s.used[r.pages[p].frame]
              && r.pages[p].frame < |r.used| && r.used[r.pages[p].frame]
              && r.pages[p].readWrite == !flags.readOnly && r.pages[p].usermode == flags.usermode
              && r.pages[p].writeThrough == flags.writeThrough && r.pages[p].cacheDisable == flags.cacheDisable
            else
              (p in r.pages <==> p in s.pages) && (p in s.pages ==> r.pages[p] == s.pages[p])
  {
    MapAutoMaps(s, start, end, count, flags);
    var i, r := Found(s, start, end, count), MapAuto(s, start, end, count, flags).space;
    assert i <= p < i + count ==> FreshPage(s, r, p, flags);
    assert !(i <= p < i + count) ==> SamePage(s, r, p);
  }

  /** A failed search is not noticed, but nothing gets mapped: the address NPOS lies in the last page, which
      is the directory in its own last table. With that mapping in place any request for a page takes one
      frame and panics, and without it the first write is to the last directory entry itself. */
  lemma FailedSearch(s: Space, start: nat, end: nat, count: nat, flags: Flags)
    requires end < FRAMES && Found(s, start, end, count) == NPOS
    ensures var r := MapAuto(s, start, end, count, flags);
            && r.outcome == (if count == 0 then Done
                             else if FreeCount(s.used) == 0 then NoFrames
                             else if SELF in s.tables then InUsePanic
                             else DirectoryWrite)
            && r.space == if count == 0 then s else TakeFrame(s)
  {
    NoneFree(s.used);
    assert (FRAMES - 1) / ENTRIES == SELF && (FRAMES - 1) % ENTRIES == SELF;
    assert Mapper(flags)(s, FRAMES - 1) == MapNext(s, FRAMES - 1, flags);
  }

  /** A request for more than the range holds: with the self mapping it panics, without it the directory is
      written. */
  lemma FailedRequest(tables: map<nat, nat>, used: seq<bool>, flags: Flags, count: nat)
    requires FreeCount(used) > 0 && count > ENTRIES
    ensures var s := Space(map[], tables, used);
            && Found(s, 0, ENTRIES, count) == NPOS
            && MapAuto(s, 0, ENTRIES, count, flags).outcome == if SELF in tables then InUsePanic else DirectoryWrite
  {
    FailedSearch(Space(map[], tables, used), 0, ENTRIES, count, flags);
  }

  // ---------- Any number of requests ----------

  datatype Request = Request(count: nat, flags: Flags)

  /** A run of requests, up to the first that finds no room or no frames. */
  function MapAll(s: Space, start: nat, end: nat, requests: seq<Request>): Space
    requires end < FRAMES
    decreases |requests|
  {
    if requests == [] || Found(s, start, end, requests[0].count) == NPOS then s
    else
      var r := MapAuto(s, start, end, requests[0].count, requests[0].flags);
      if r.outcome == Done then MapAll(r.space, start, end, requests[1..]) else s
  }

  /** Over any run of requests no frame ever has two holders, every frame held is in use, and a page once
      mapped keeps its frame and its rights. */
  lemma {:induction false} MapAllKeeps(s: Backed, start: nat, end: nat, requests: seq<Request>, p: nat)
    requires end < FRAMES
    ensures var r := MapAll(s, start, end, requests);
            WellBacked(r) && (p in s.pages ==> p in r.pages && r.pages[p] == s.pages[p])
    decreases |requests|
  {
    if requests != [] && Found(s, start, end, requests[0].count) != NPOS {
      var r := MapAuto(s, start, end, requests[0].count, requests[0].flags);
      MapAutoMaps(s, start, end, requests[0].count, requests[0].flags);
      if r.outcome == Done {
        assert p in s.pages ==> SamePage(s, r.space, p);
        MapAllKeeps(r.space, start, end, requests[1..], p);
      }
    }
  }
}
