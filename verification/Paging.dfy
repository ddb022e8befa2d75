/** The paging code over its own data: the page list, the free list, the swap map, page table entries, memory
    and the paging file (src/geekos/mem.c, paging.c, uservm.c). */
module Paging {
  import opened PagingSpec

  class Pager {
    const pages: array<Page>
    const swap: array<bool>
    const mem: array<Sector>
    const disk: array<Sector>
    const start: int
    var free: seq<int>
    var freeCount: int
    var ptes: map<Key, Pte>
    var tables: map<(int, int), int>
    var dirs: map<int, int>
    /** The state these fields represent, and the steps by which it came about. */
    ghost var m: Machine
    ghost const origin: Machine
    ghost var log: seq<Event>

    /** Memory holds the pages, and the device the paging file. */
    ghost predicate Shape() {
      mem != disk && mem.Length == FrameAt(pages.Length) && start >= 0
          && start + SECTORS_PER_PAGE * swap.Length <= disk.Length
    }

    ghost predicate Matches()
      reads this, pages, swap, mem, disk
    {
      && Shape() && m.start == start && freeCount == |free|
      && pages[..] == m.pages && free == m.free && swap[..] == m.swap && mem[..] == m.mem && disk[..] == m.disk
      && ptes == m.ptes && tables == m.tables && dirs == m.dirs
    }

    ghost predicate Valid()
      reads this, pages, swap, mem, disk
    {
      Matches() && Inv(m) && Reached(origin, log, m)
    }

    constructor (frames: nat, places: nat, first: nat)
      ensures Valid() && Fresh(m) && log == [] && pages.Length == frames && swap.Length == places && start == first
    {
      var none := Page(false, false, false, 0, Key(0, 0));
      var pageList := new Page[frames](_ => none);
      var swapMap := new bool[places](_ => false);
      var memory := new Sector[SECTORS_PER_PAGE * frames];
      var device := new Sector[first + SECTORS_PER_PAGE * places];
      var all := seq(frames, i => i);
      pages, swap, mem, disk, start := pageList, swapMap, memory, device, first;
      free, freeCount := all, frames;
      ptes, tables, dirs, log := map[], map[], map[], [];
      ghost var boot := Machine(pageList[..], all, swapMap[..], memory[..], device[..], first, map[], map[], map[],
                                seq(frames, _ => Free), seq(places, _ => Unused), map[]);
      m, origin := boot, boot;
      new;
      FreshInv(m);
      ReachedFirst(m);
    }

    /** Alloc_Page: the first page of the free list, or -1. The caller sees to m. */
    method AllocPage() returns (f: int)
      requires Valid()
      modifies `free, `freeCount, pages
      ensures f == -1 <==> old(free) == []
      ensures f == -1 ==> Valid()
      ensures f != -1 ==> 0 <= f < pages.Length && f == old(free)[0] && free == old(free)[1..] && freeCount == |free|
      ensures f != -1 ==> pages[..] == old(pages[..])[f := old(pages[f]).(taken := true)] && !pages[f].pageable
    {
      hide Inv;
      f := -1;
      if free != [] {
        FrontOff(m);
        FrameIs(m, free[0]);
        f := free[0];
        assert !pages[f].taken;
        free := free[1..];
        pages[f] := pages[f].(taken := true);
        freeCount := freeCount - 1;
      }
    }

    /** Find_Page_To_Page_Out: the first of the pages with the least clock among those that can be, or -1. */
    method FindPageToPageOut() returns (best: int)
      ensures best == -1 <==> forall f :: 0 <= f < pages.Length ==> !(pages[f].pageable && pages[f].taken)
      ensures best != -1 ==> 0 <= best < pages.Length && pages[best].pageable && pages[best].taken
      ensures best != -1 ==> forall f :: 0 <= f < pages.Length && pages[f].pageable && pages[f].taken ==>
          pages[best].clock <= pages[f].clock
      ensures best != -1 ==> forall f :: 0 <= f < best && pages[f].pageable && pages[f].taken ==>
          pages[best].clock < pages[f].clock
    {
      best := -1;
      for i := 0 to pages.Length
        invariant best == -1 <==> forall f :: 0 <= f < i ==> !(pages[f].pageable && pages[f].taken)
        invariant best != -1 ==> 0 <= best < i && pages[best].pageable && pages[best].taken
        invariant best != -1 ==> forall f :: 0 <= f < i && pages[f].pageable && pages[f].taken ==>
            pages[best].clock <= pages[f].clock
        invariant best != -1 ==> forall f :: 0 <= f < best && pages[f].pageable && pages[f].taken ==>
            pages[best].clock < pages[f].clock
      {
        if pages[i].pageable && pages[i].taken {
          if best == -1 { best := i; }
          if pages[i].clock < pages[best].clock && pages[i].pageable { best := i; }
        }
      }
    }

    /** Find_Space_On_Paging_File: the first place not in use, or -1. */
    method FindSpace() returns (p: int)
      ensures p == -1 <==> forall i :: 0 <= i < swap.Length ==> swap[i]
      ensures p != -1 ==> 0 <= p < swap.Length && !swap[p] && forall i :: 0 <= i < p ==> swap[i]
    {
      for i := 0 to swap.Length
        invariant forall j :: 0 <= j < i ==> swap[j]
      {
        if !swap[i] { return i; }
      }
      return -1;
    }

    /** Write_To_Paging_File: sector by sector; only then is the place marked as used. */
    method WriteToPagingFile(f: int, p: int)
      requires Shape() && 0 <= f < pages.Length && 0 <= p < swap.Length
      modifies disk, swap
      ensures disk[..] == Copy(old(disk[..]), start + SECTORS_PER_PAGE * p, Region(mem[..], FrameAt(f)))
      ensures swap[..] == old(swap[..])[p := true]
    {
      Transfer(mem, SECTORS_PER_PAGE * f, disk, start + SECTORS_PER_PAGE * p);
      swap[p] := true;
    }

    /** Read_From_Paging_File. */
    method ReadFromPagingFile(f: int, p: int)
      requires Shape() && 0 <= f < pages.Length && 0 <= p < swap.Length
      modifies mem
      ensures mem[..] == Copy(old(mem[..]), FrameAt(f), Region(disk[..], start + SECTORS_PER_PAGE * p))
    {
      Transfer(disk, start + SECTORS_PER_PAGE * p, mem, SECTORS_PER_PAGE * f);
    }

    /** There is a page to evict. */
    ghost predicate HasVictim()
      reads this
    {
      exists v {:trigger m.use[v]} :: 0 <= v < |m.use| && m.use[v].Mapped?
    }

    /** The paging file is full. */
    ghost predicate SwapFull()
      reads this
    {
      forall p {:trigger m.slots[p]} :: 0 <= p < |m.slots| ==> !m.slots[p].Unused?
    }

    /** What to evict, and where to: the oldest page, the first place, if there is one. */
    method ChooseVictim(k: Key) returns (f: int, p: int)
      requires Valid() && Quiet(m) && !PteOf(m, k).present && HasVictim()
      ensures p == -1 <==> SwapFull()
      ensures p != -1 ==> CanEvict(m, k, f, p)
      ensures forall g :: 0 <= g < pages.Length && m.use[g].Mapped? ==>
          0 <= f < pages.Length && pages[f].clock <= pages[g].clock
    {
      hide Inv, Reached;
      InvSizes(m);
      forall g | 0 <= g < pages.Length
        ensures m.use[g].Mapped? <==> pages[g].pageable && pages[g].taken
      {
        FrameIs(m, g);
      }
      forall q | 0 <= q < swap.Length ensures m.slots[q].Unused? <==> !swap[q] { SlotIs(m, q); }
      f := FindPageToPageOut();
      p := FindSpace();
    }

    /** Alloc_Pageable_Page, when no page is free: page f, unpageable and locked meanwhile, is written out, and
        its frame taken for k. */
    method Steal(k: Key, f: int, p: int)
      requires Valid() && Quiet(m) && free == [] && CanEvict(m, k, f, p)
      modifies `ptes, `m, `log, pages, swap, disk
      ensures Valid() && m == PagedOut(old(m), k, f, p) && log == old(log) + [Evict(k, f, p)]
    {
      hide Inv, Copy, Region, Reached, Quiet;
      FrameIs(m, f);
      PagedOutKeeps(m, k, f, p);
      assert pages[f].pageable;
      pages[f] := pages[f].(pageable := false, locked := true);
      var kv := pages[f].entry;
      WriteToPagingFile(f, p);
      assert pages[f].taken;
      ptes := ptes[kv := Pte(false, true, p)];
      pages[f] := pages[f].(locked := false);
      pages[f] := pages[f].(pageable := true, entry := k);
      ReachedMore(origin, log, m, Evict(k, f, p));
      log := log + [Evict(k, f, p)];
      m := PagedOut(m, k, f, p);
    }

    /** Alloc_Pageable_Page, when a page is free. */
    method ClaimFront(k: Key) returns (f: int)
      requires Valid() && Quiet(m) && !PteOf(m, k).present
      modifies `free, `freeCount, `m, `log, pages
      ensures Valid() && (f == -1 <==> old(free) == [])
      ensures f == -1 ==> m == old(m) && log == old(log)
      ensures f != -1 ==> log == old(log) + [Claim(k)]
      ensures f != -1 ==>
          0 <= f < |old(m).pages| == |old(m).use| && old(m).free != [] && f == old(m).free[0] && m == Claimed(old(m), k)
    {
      hide Inv, Reached, Quiet;
      InvSizes(m);
      if free != [] { ClaimFacts(m, k); }
      f := AllocPage();
      if f != -1 {
        assert !pages[f].pageable;
        pages[f] := pages[f].(pageable := true, entry := k);
        ReachedMore(origin, log, m, Claim(k));
        log := log + [Claim(k)];
        m := Claimed(m, k);
      }
    }

    /** The end of Alloc_Pageable_Page: the entry is no longer marked as on disk. */
    method ClearKernelInfo(k: Key)
      requires Valid() && !PteOf(m, k).present && exists f {:trigger m.use[f]} ::
          0 <= f < |m.use| && m.use[f] == Moving(k)
      modifies `ptes, `m, `log
      ensures Valid() && m == Fetching(old(m), k) && log == old(log) + [Clear(k)]
    {
      hide Inv, Reached;
      KeyIs(m, k);
      InvSizes(m);
      FetchingKeeps(m, k);
      if k in ptes {
        ptes := ptes[k := ptes[k].(onDisk := false)];
      }
      ReachedMore(origin, log, m, Clear(k));
      log := log + [Clear(k)];
      m := Fetching(m, k);
      assert ptes == m.ptes;
    }

    /** Alloc_Pageable_Page: a frame for k, or -1, exactly if no page is free and the paging file is full. */
    method AllocPageable(k: Key) returns (f: int)
      requires Valid() && Quiet(m) && !PteOf(m, k).present && TableOf(k) in tables
      requires free == [] ==> HasVictim()
      modifies this, pages, swap, disk
      ensures Valid() && m.flat == old(m).flat
      ensures f == -1 <==> old(free) == [] && old(SwapFull())
      ensures f == -1 ==> m == old(m) && log == old(log)
      ensures f != -1 ==>
          Handling(m, k, f) && PteOf(m, k) == PteOf(old(m), k).(onDisk := false) && (k in m.ptes <==> k in old(m).ptes)
      ensures f != -1 && !PteOf(old(m), k).onDisk ==> NoneLoading(m)
      ensures f != -1 && PteOf(old(m), k).onDisk ==>
          0 <= PteOf(m, k).base < |m.slots| && m.slots[PteOf(m, k).base] == Loading(k)
      ensures old(free) != [] ==> f == old(free)[0] && free == old(free)[1..] && NoneLeaves(old(m), m, k)
      ensures old(free) == [] && f != -1 ==> free == [] && OldestLeaves(old(m), m, k, f)
    {
      hide Inv, Quiet, Copy, Region, HasVictim, SwapFull, Reached, NoneLeaves, OldestLeaves;
      ghost var s := m;
      InvOf();
      f := ClaimFront(k);
      if f != -1 {
        ClaimHandles(s, k);
        ClaimLeaves(s, k);
        InvOf();
      } else {
        var p;
        f, p := ChooseVictim(k);
        if p < 0 { return -1; }
        EvictHandles(s, k, f, p);
        VictimPresent(s, k, f, p);
        EvictLeaves(s, k, f, p);
        Steal(k, f, p);
        InvOf();
      }
      assert m.use[f] == Moving(k);
      FetchingEntry(m, k);
      ClearKernelInfo(k);
    }

    /** How many pages the fault for k takes besides the page itself. */
    ghost function TablesNeeded(k: Key): int
      reads this
    {
      if TableOf(k) in tables then 0 else 1
    }

    /** A page is free for page k's page table, if there is none yet; and one for the page, or one to evict. */
    ghost predicate HasRoom(k: Key)
      reads this
    {
      |free| >= TablesNeeded(k) && (|free| == TablesNeeded(k) ==> HasVictim())
    }

    /** Page_Fault_Handler for a page not present: a table is made if there is none, a frame found, and the page
        read in if it was on disk. With no page free and the paging file full, the process is ended, and no one's
        memory has changed. */
    method PageFault(k: Key) returns (killed: bool)
      requires Valid() && Quiet(m) && !PteOf(m, k).present
      requires k.ctx in dirs && 512 <= TableOf(k).1 < 1024 && HasRoom(k)
      modifies this, pages, swap, disk, mem
      ensures Valid() && Quiet(m)
      ensures killed <==> old(|free| == TablesNeeded(k) && SwapFull())
      ensures killed ==> m.flat == old(m).flat
      ensures !killed ==> k in ptes && ptes[k].present && SameMemory(old(m), m, k)
    {
      hide Inv, Copy, Region, Quiet, HasVictim, SwapFull, Reached;
      if TableOf(k) !in tables { MakeTable(k); }
      ghost var s := m;
      var onDisk := k in ptes && ptes[k].onDisk;
      var f := AllocPageable(k);
      if f == -1 { return true; }
      PageIn(k, f, onDisk);
      killed := false;
    }

    /** Its last part: the page is read into the frame found for it. */
    method PageIn(k: Key, f: int, onDisk: bool)
      requires Valid() && Handling(m, k, f)
      requires onDisk ==> k in ptes && 0 <= ptes[k].base < |m.slots| && m.slots[ptes[k].base] == Loading(k)
      requires !onDisk ==> NoneLoading(m)
      modifies `ptes, `m, `log, swap, mem
      ensures Valid() && Quiet(m) && k in ptes && ptes[k].present && SameMemory(old(m), m, k)
    {
      hide Inv, Copy, Region, Quiet, Reached;
      ghost var t := m;
      HandlingFacts(t, k, f);
      if onDisk {
        ReadFromPagingFile(f, ptes[k].base);
        swap[ptes[k].base] := false;
      }
      ptes := ptes[k := Pte(true, false, f)];
      ReachedMore(origin, log, t, Finish(k, f));
      log := log + [Finish(k, f)];
      m := Arrive(t, k, f);
      ArriveQuiet(t, k, f);
    }

    /** Its first part: the page table that k belongs to. */
    method MakeTable(k: Key)
      requires Valid() && Quiet(m) && TableOf(k) !in tables && k.ctx in dirs && 512 <= TableOf(k).1 < 1024 && |free| > 0
      modifies `free, `freeCount, `tables, `m, `log, pages
      ensures Valid() && Quiet(m) && TableOf(k) in tables && log == old(log) + [NewTable(TableOf(k))]
          && m.flat == old(m).flat && m.ptes == old(m).ptes && |free| == old(|free|) - 1
      ensures (old(HasVictim()) ==> HasVictim()) && (old(SwapFull()) <==> SwapFull())
    {
      hide Inv, Reached, Quiet;
      TableFacts(m, k);
      var f := AllocPage();
      tables := tables[TableOf(k) := f];
      ReachedMore(origin, log, m, NewTable(TableOf(k)));
      log := log + [NewTable(TableOf(k))];
      m := AddTable(m, TableOf(k));
      if old(HasVictim()) { StillVictim(old(m), TableOf(k)); }
    }

    /** A user stores into a page that is present. */
    method UserStore(k: Key, i: int, x: Sector)
      requires Valid() && Quiet(m) && k in ptes && ptes[k].present && 0 <= i < SECTORS_PER_PAGE
      modifies mem, `m, `log
      ensures Valid() && Quiet(m) && log == old(log) + [Put(k, i, x)] && k in old(m).flat && i < |old(m).flat[k]|
      ensures m.flat == old(m).flat[k := old(m).flat[k][i := x]]
    {
      hide Inv, Reached;
      StoreFacts(m, k, i);
      StoreKeeps(m, k, i, x);
      mem[SECTORS_PER_PAGE * ptes[k].base + i] := x;
      ReachedMore(origin, log, m, Put(k, i, x));
      log := log + [Put(k, i, x)];
      m := Store(m, k, i, x);
    }

    /** A user loads from a page that is present: what it last stored there. */
    method UserLoad(k: Key, i: int) returns (x: Sector)
      requires Valid() && Quiet(m) && k in ptes && ptes[k].present && 0 <= i < SECTORS_PER_PAGE
      ensures k in m.flat && i < |m.flat[k]| && x == m.flat[k][i]
      ensures LastPut(log, k, i).Last? ==> x == LastPut(log, k, i).x
    {
      hide Inv, Fresh, Legal, Run, LastPut;
      if LastPut(log, k, i).Last? { LastStoreFound(origin, log, k, i); }
      StoreFacts(m, k, i);
      x := mem[SECTORS_PER_PAGE * ptes[k].base + i];
    }

    /** A new address space: a page for its directory. */
    method NewContext(c: int)
      requires Valid() && Quiet(m) && c !in dirs && |free| > 0
      modifies `free, `freeCount, `dirs, `m, `log, pages
      ensures Valid() && Quiet(m) && c in dirs && m.flat == old(m).flat && log == old(log) + [NewDir(c)]
    {
      hide Inv, Reached, Quiet;
      DirFacts(m, c);
      var f := AllocPage();
      dirs := dirs[c := f];
      ReachedMore(origin, log, m, NewDir(c));
      log := log + [NewDir(c)];
      m := AddDir(m, c);
    }

    /** Free_Page: a page that is locked, because it is being written out, is only marked as not allocated. */
    method FreePage(f: int)
      requires Matches() && 0 <= f < pages.Length && pages[f].taken
      modifies `free, `freeCount, pages
      ensures freeCount == |free| && free == if old(pages[f]).locked then old(free) else old(free) + [f]
      ensures pages[..] == old(pages[..])[f := if old(pages[f]).locked then old(pages[f]).(taken := false)
                                               else old(pages[f]).(taken := false, pageable := false)]
    {
      assert pages[f].taken;
      pages[f] := pages[f].(taken := false);
      if pages[f].locked { return; }
      pages[f] := pages[f].(pageable := false);
      free := free + [f];
      freeCount := freeCount + 1;
    }

    /** Destroy_User_Context, one page table entry: a page on disk or in memory is given up. The entry itself is
        not cleared: it goes with its table, and is dropped from ptes here. */
    method DropEntry(k: Key)
      requires Valid() && CanDrop(m, k)
      modifies `free, `freeCount, `ptes, `m, `log, pages, swap
      ensures Valid() && m == Drop(old(m), k) && Quiet(m) && log == old(log) + [Forget(k)]
    {
      hide Inv, Reached, Quiet;
      DropKeeps(m, k);
      EntryFacts(m, k);
      if !ptes[k].present && ptes[k].onDisk {
        swap[ptes[k].base] := false;
      } else if ptes[k].present {
        FreePage(ptes[k].base);
      }
      ptes := ptes - {k};
      ReachedMore(origin, log, m, Forget(k));
      log := log + [Forget(k)];
      m := Drop(m, k);
    }

    /** Destroy_User_Context: its pages, page tables and directory. */
    method DestroyContext(c: int)
      requires Valid() && Quiet(m) && c in dirs
      modifies `free, `freeCount, `ptes, `tables, `dirs, `m, `log, pages, swap
      ensures Valid() && Quiet(m) && Destroyed(old(m), m, c)
    {
      hide Inv, Quiet, Gone, Destroyed, Reached, Enabled;
      ghost var s := m;
      NothingGone(s, c);
      for i := 512 to 1024
        invariant Valid() && Quiet(m) && Gone(s, m, c, TABLE_ENTRIES * i, i)
      {
        DestroyTable(s, c, i);
      }
      GoneDirs(s, m, c);
      DirGoes(s, m, c);
      DirFrame(m, c);
      FreePage(dirs[c]);
      dirs := dirs - {c};
      ReachedMore(origin, log, m, ForgetDir(c));
      log := log + [ForgetDir(c)];
      m := DropDir(m, c);
    }

    /** One turn of its loop. */
    method DestroyTable(ghost s: Machine, c: int, i: int)
      requires Valid() && Inv(s) && Quiet(m) && 512 <= i < 1024 && Gone(s, m, c, TABLE_ENTRIES * i, i)
      modifies `free, `freeCount, `ptes, `tables, `m, `log, pages, swap
      ensures Valid() && Quiet(m) && Gone(s, m, c, TABLE_ENTRIES * (i + 1), i + 1)
    {
      hide Inv, Quiet, Gone, Reached, Enabled;
      if (c, i) !in tables {
        NoTableGoes(s, m, c, i);
        return;
      }
      DropTablePages(s, c, i);
      TableGoes(s, m, c, i);
      TableFrame(m, (c, i));
      FreePage(tables[(c, i)]);
      tables := tables - {(c, i)};
      ReachedMore(origin, log, m, ForgetTable((c, i)));
      log := log + [ForgetTable((c, i))];
      m := DropTable(m, (c, i));
    }

    /** Its inner loop: the entries of one table. */
    method DropTablePages(ghost s: Machine, c: int, i: int)
      requires Valid() && Inv(s) && Quiet(m) && Gone(s, m, c, TABLE_ENTRIES * i, i) && (c, i) in tables
      modifies `free, `freeCount, `ptes, `m, `log, pages, swap
      ensures Valid() && Quiet(m) && Gone(s, m, c, TABLE_ENTRIES * (i + 1), i) && (c, i) in tables
    {
      hide Inv, Quiet, Gone, Reached;
      for j := 0 to TABLE_ENTRIES
        invariant Valid() && Quiet(m) && Gone(s, m, c, TABLE_ENTRIES * i + j, i)
      {
        var k := Key(c, TABLE_ENTRIES * i + j);
        if k in ptes {
          DropGoes(s, m, c, TABLE_ENTRIES * i + j, i);
          DropEntry(k);
        } else {
          NoEntryGoes(s, m, c, TABLE_ENTRIES * i + j, i);
        }
      }
    }

    lemma InvOf()
      requires Valid()
      ensures Inv(m) && tables == m.tables && ptes == m.ptes && free == m.free && pages.Length == |m.pages|
    {
    }
  }

  lemma ClaimFacts(s: Machine, k: Key)
    requires Inv(s) && s.free != [] && !PteOf(s, k).present
    ensures 0 <= s.free[0] < |s.pages| == |s.use| && !s.pages[s.free[0]].pageable && !s.pages[s.free[0]].locked
    ensures Inv(Claimed(s, k))
  {
    InvSizes(s);
    FrontOff(s);
    FrameIs(s, s.free[0]);
    ClaimedKeeps(s, k);
  }

  lemma FetchingEntry(s: Machine, k: Key)
    requires Inv(s) && !PteOf(s, k).present
    ensures var r := Fetching(s, k);
            && PteOf(r, k) == PteOf(s, k).(onDisk := false) && (k in r.ptes <==> k in s.ptes)
            && (PteOf(s, k).onDisk ==> 0 <= PteOf(r, k).base < |r.slots| && r.slots[PteOf(r, k).base] == Loading(k))
  {
    hide Inv;
    KeyIs(s, k);
  }

  /** A page thrown out is not the one being fetched. */
  lemma VictimPresent(s: Machine, k: Key, f: int, p: int)
    requires Inv(s) && CanEvict(s, k, f, p)
    ensures PteOf(PagedOut(s, k, f, p), k) == PteOf(s, k) && (k in PagedOut(s, k, f, p).ptes <==> k in s.ptes)
  {
    hide Inv, Copy, Region;
    FrameIs(s, f);
  }

  lemma HandlingFacts(s: Machine, k: Key, f: int)
    requires Handling(s, k, f)
    ensures Inv(s) && Sizes(s) && 0 <= f < |s.pages|
  {
  }

  lemma TableFacts(s: Machine, k: Key)
    requires Inv(s) && Quiet(s) && TableOf(k) !in s.tables && k.ctx in s.dirs && 512 <= TableOf(k).1 < 1024
        && s.free != []
    ensures 0 <= s.free[0] < |s.pages| == |s.use| && s.use[s.free[0]].Free?
    ensures var r := AddTable(s, TableOf(k)); Inv(r) && Quiet(r)
  {
    hide Inv;
    InvSizes(s);
    FrontOff(s);
    AddTableKeeps(s, TableOf(k));
  }

  /** A page table takes no page's frame and no place in the paging file. */
  lemma StillVictim(s: Machine, t: (int, int))
    requires s.free != [] && 0 <= s.free[0] < |s.pages| == |s.use| && s.use[s.free[0]].Free?
    requires exists v {:trigger s.use[v]} :: 0 <= v < |s.use| && s.use[v].Mapped?
    ensures var r := AddTable(s, t); exists v {:trigger r.use[v]} :: 0 <= v < |r.use| && r.use[v].Mapped?
  {
    var v :| 0 <= v < |s.use| && s.use[v].Mapped?;
    assert AddTable(s, t).use[v].Mapped?;
  }

  lemma DirFacts(s: Machine, c: int)
    requires Inv(s) && Quiet(s) && c !in s.dirs && s.free != []
    ensures 0 <= s.free[0] < |s.pages| == |s.use|
    ensures var r := AddDir(s, c); Inv(r) && Quiet(r)
  {
    hide Inv;
    InvSizes(s);
    FrontOff(s);
    AddDirKeeps(s, c);
  }

  lemma StoreFacts(s: Machine, k: Key, i: int)
    requires Inv(s) && k in s.ptes && s.ptes[k].present && 0 <= i < SECTORS_PER_PAGE
    ensures CanStore(s, k, i) && |s.flat[k]| == SECTORS_PER_PAGE && s.flat[k][i] == s.mem[FrameAt(s.ptes[k].base) + i]
  {
    hide Inv;
    InvSizes(s);
    KeyIs(s, k);
    RegionInside(s, s.ptes[k].base, 0);
  }

  lemma EntryFacts(s: Machine, k: Key)
    requires Inv(s) && k in s.ptes
    ensures s.ptes[k].present ==>
        0 <= s.ptes[k].base < |s.pages| && s.pages[s.ptes[k].base].taken && !s.pages[s.ptes[k].base].locked
  {
    hide Inv;
    InvSizes(s);
    KeyIs(s, k);
    FrameIs(s, s.ptes[k].base);
  }

  lemma TableFrame(s: Machine, t: (int, int))
    requires Inv(s) && t in s.tables
    ensures 0 <= s.tables[t] < |s.pages| && s.pages[s.tables[t]].taken && !s.pages[s.tables[t]].locked
  {
    hide Inv;
    InvSizes(s);
    TableIs(s, t);
    FrameIs(s, s.tables[t]);
  }

  lemma DirFrame(s: Machine, c: int)
    requires Inv(s) && c in s.dirs
    ensures 0 <= s.dirs[c] < |s.pages| && s.pages[s.dirs[c]].taken && !s.pages[s.dirs[c]].locked
  {
    hide Inv;
    InvSizes(s);
    TableIs(s, (c, 0));
    FrameIs(s, s.dirs[c]);
  }

  lemma GoneDirs(s: Machine, r: Machine, c: int)
    requires Gone(s, r, c, TABLE_ENTRIES * 1024, 1024)
    ensures r.dirs == s.dirs
  {
  }

  /** The loop of both transfers: one page, a sector at a time. */
  method Transfer(src: array<Sector>, from: int, dst: array<Sector>, to: int)
    requires src != dst && 0 <= from && from + SECTORS_PER_PAGE <= src.Length && 0 <= to
        && to + SECTORS_PER_PAGE <= dst.Length
    modifies dst
    ensures dst[..] == Copy(old(dst[..]), to, Region(src[..], from))
  {
    for i := 0 to SECTORS_PER_PAGE
      invariant forall k {:trigger dst[k]} :: 0 <= k < dst.Length ==>
                  dst[k] == if to <= k < to + i then src[from + (k - to)] else old(dst[k])
    {
      dst[to + i] := src[from + i];
    }
    ghost var r := Copy(old(dst[..]), to, Region(src[..], from));
    forall k | 0 <= k < dst.Length ensures dst[k] == r[k] {}
  }
}
