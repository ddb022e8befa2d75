/** Demand paging (src/geekos/mem.c, paging.c, uservm.c) as transitions of one state: page frames, the paging
    file, page table entries, and the flat user memory that they are to present. */
module PagingSpec {
  import opened Seqs

  /** The contents of a 512-byte sector, as one number. */
  type Sector = int

  const SECTORS_PER_PAGE := 8
  const TABLE_ENTRIES := 1024

  /** Where a page table entry is: whose, and for which virtual page. */
  datatype Key = Key(ctx: int, vpn: int)

  /** onDisk: kernelInfo is KINFO_PAGE_ON_DISK. base: pageBaseAddr, a frame or a place in the paging file. */
  datatype Pte = Pte(present: bool, onDisk: bool, base: int)

  datatype Page = Page(taken: bool, pageable: bool, locked: bool, clock: int, entry: Key)

  /** What a frame is for. Moving: taken for a page that is not there yet. */
  datatype Use = Reserved | Free | Mapped(k: Key) | Moving(k: Key) | Table(ctx: int, i: int) | Dir(ctx: int)

  /** What a place in the paging file is for. Loading: it holds a page that is about to be read back. */
  datatype SlotUse = Unused | Holds(k: Key) | Loading(k: Key)

  /** free: the free list. start: the first sector of the paging file. The last three fields are not in the
      machine: what every frame and place is for, and the memory that users see. */
  datatype Machine = Machine(
    pages: seq<Page>, free: seq<int>, swap: seq<bool>, mem: seq<Sector>, disk: seq<Sector>, start: int,
    ptes: map<Key, Pte>, tables: map<(int, int), int>, dirs: map<int, int>,
    use: seq<Use>, slots: seq<SlotUse>, flat: map<Key, seq<Sector>>)

  /** The eight sectors from at on. */
  function Region(m: seq<Sector>, at: int): seq<Sector> {
    if 0 <= at && at + SECTORS_PER_PAGE <= |m| then m[at..at + SECTORS_PER_PAGE] else []
  }

  function Copy(m: seq<Sector>, at: int, page: seq<Sector>): (r: seq<Sector>)
    requires 0 <= at && at + SECTORS_PER_PAGE <= |m| && |page| == SECTORS_PER_PAGE
    ensures |r| == |m|
  {
    m[..at] + page + m[at + SECTORS_PER_PAGE..]
  }

  function FrameAt(f: int): int {
    SECTORS_PER_PAGE * f
  }

  function SlotAt(s: Machine, p: int): int {
    s.start + SECTORS_PER_PAGE * p
  }

  function PteOf(s: Machine, k: Key): Pte {
    if k in s.ptes then s.ptes[k] else Pte(false, false, 0)
  }

  function TableOf(k: Key): (int, int) {
    (k.ctx, k.vpn / TABLE_ENTRIES)
  }

  // ---------------------------------------------------------------------------------------------
  // The invariant
  // ---------------------------------------------------------------------------------------------

  ghost predicate Sizes(s: Machine) {
    && |s.pages| == |s.use| && |s.swap| == |s.slots| && |s.mem| == FrameAt(|s.pages|)
    && s.start >= 0 && SlotAt(s, |s.swap|) <= |s.disk|
  }

  ghost predicate FrameOk(s: Machine, f: int)
    requires 0 <= f < |s.pages| == |s.use|
  {
    var p, u := s.pages[f], s.use[f];
    && !p.locked && (f in s.free <==> u.Free?)
    && match u
       case Reserved => !p.pageable
       case Free => !p.taken && !p.pageable
       case Mapped(k) => p.taken && p.pageable && p.entry == k && k in s.ptes && s.ptes[k] == Pte(true, false, f)
       case Moving(k) => p.taken && p.pageable && p.entry == k && !PteOf(s, k).present
       case Table(c, i) => p.taken && !p.pageable && (c, i) in s.tables && s.tables[(c, i)] == f
       case Dir(c) => p.taken && !p.pageable && c in s.dirs && s.dirs[c] == f
  }

  ghost predicate SlotOk(s: Machine, p: int)
    requires 0 <= p < |s.swap| == |s.slots|
  {
    match s.slots[p]
    case Unused => !s.swap[p]
    case Holds(k) => s.swap[p] && k in s.ptes && s.ptes[k] == Pte(false, true, p)
    case Loading(k) => s.swap[p] && k in s.ptes && s.ptes[k] == Pte(false, false, p) && k in s.flat
  }

  /** A present entry names a frame that is there for it, an entry on disk a place that is. */
  ghost predicate KeyOk(s: Machine, k: Key) {
    k in s.ptes ==>
      var e := s.ptes[k];
      && TableOf(k) in s.tables
      && (e.present ==> 0 <= e.base < |s.use| && s.use[e.base] == Mapped(k))
      && (!e.present && e.onDisk ==> 0 <= e.base < |s.slots| && s.slots[e.base] == Holds(k))
      && (e.present || e.onDisk ==> k in s.flat)
  }

  /** The user's page is where the entry says. */
  ghost predicate FlatOk(s: Machine, k: Key) {
    k in s.flat ==>
      var e := PteOf(s, k);
      && k in s.ptes
      && (e.present ==> s.flat[k] == Region(s.mem, FrameAt(e.base)))
      && (!e.present ==> 0 <= e.base < |s.slots| && (s.slots[e.base] == Holds(k) || s.slots[e.base] == Loading(k))
                         && s.flat[k] == Region(s.disk, SlotAt(s, e.base)))
  }

  ghost predicate TableOk(s: Machine, t: (int, int)) {
    t in s.tables ==>
        0 <= s.tables[t] < |s.use| && s.use[s.tables[t]] == Table(t.0, t.1) && t.0 in s.dirs && 512 <= t.1 < 1024
  }

  ghost predicate DirOk(s: Machine, c: int) {
    c in s.dirs ==> 0 <= s.dirs[c] < |s.use| && s.use[s.dirs[c]] == Dir(c)
  }

  ghost predicate Frames(s: Machine) {
    && |s.pages| == |s.use|
    && (forall f {:trigger s.use[f]} {:trigger s.pages[f]} :: 0 <= f < |s.use| ==> FrameOk(s, f))
    && Distinct(s.free) && forall f {:trigger f in s.free} :: f in s.free ==> 0 <= f < |s.pages|
  }

  ghost predicate Slots(s: Machine) {
    && |s.swap| == |s.slots|
    && forall p {:trigger s.slots[p]} {:trigger s.swap[p]} :: 0 <= p < |s.slots| ==> SlotOk(s, p)
  }

  ghost predicate Keys(s: Machine) {
    forall k {:trigger KeyOk(s, k)} {:trigger k in s.ptes} :: KeyOk(s, k)
  }

  ghost predicate Flat(s: Machine) {
    forall k {:trigger FlatOk(s, k)} {:trigger k in s.flat} :: FlatOk(s, k)
  }

  ghost predicate Tables(s: Machine) {
    && (forall t {:trigger TableOk(s, t)} {:trigger t in s.tables} :: TableOk(s, t))
    && (forall c {:trigger DirOk(s, c)} {:trigger c in s.dirs} :: DirOk(s, c))
  }

  ghost predicate Inv(s: Machine) {
    Sizes(s) && Frames(s) && Slots(s) && Keys(s) && Flat(s) && Tables(s)
  }

  /** No fault is being handled. */
  ghost predicate Quiet(s: Machine) {
    && (forall f {:trigger s.use[f]} :: 0 <= f < |s.use| ==> !s.use[f].Moving?)
    && (forall p {:trigger s.slots[p]} :: 0 <= p < |s.slots| ==> !s.slots[p].Loading?)
  }

  // ---------------------------------------------------------------------------------------------
  // Transitions
  // ---------------------------------------------------------------------------------------------

  /** Alloc_Page for a page table. */
  ghost function AddTable(s: Machine, t: (int, int)): Machine
    requires s.free != [] && 0 <= s.free[0] < |s.pages| == |s.use|
  {
    var f := s.free[0];
    s.(free := s.free[1..], pages := s.pages[f := s.pages[f].(taken := true)], use := s.use[f := Table(t.0, t.1)],
       tables := s.tables[t := f])
  }

  /** Alloc_Page for a page directory. */
  ghost function AddDir(s: Machine, c: int): Machine
    requires s.free != [] && 0 <= s.free[0] < |s.pages| == |s.use|
  {
    var f := s.free[0];
    s.(free := s.free[1..], pages := s.pages[f := s.pages[f].(taken := true)], use := s.use[f := Dir(c)],
        dirs := s.dirs[c := f])
  }

  /** The entry for k is no longer marked as on disk, while its page is being fetched. */
  ghost function Fetching(s: Machine, k: Key): Machine {
    var e := PteOf(s, k);
    if e.onDisk && 0 <= e.base < |s.slots|
        then s.(ptes := s.ptes[k := Pte(false, false, e.base)], slots := s.slots[e.base := Loading(k)])
    else s
  }

  /** Alloc_Pageable_Page takes a free frame for k. */
  ghost function Claimed(s: Machine, k: Key): Machine
    requires s.free != [] && 0 <= s.free[0] < |s.pages| == |s.use|
  {
    var f := s.free[0];
    s.(free := s.free[1..], pages := s.pages[f := Page(true, true, false, s.pages[f].clock, k)],
        use := s.use[f := Moving(k)])
  }

  /** With none free, the page in frame v goes to place p of the paging file, and the frame is for k. */
  ghost function PagedOut(s: Machine, k: Key, v: int, p: int): Machine
    requires Sizes(s) && 0 <= v < |s.pages| && 0 <= p < |s.swap| && s.use[v].Mapped?
  {
    var kv := s.use[v].k;
    RegionInside(s, v, p);
    s.(disk := Copy(s.disk, SlotAt(s, p), Region(s.mem, FrameAt(v))), swap := s.swap[p := true],
        slots := s.slots[p := Holds(kv)],
       ptes := s.ptes[kv := Pte(false, true, p)],
       pages := s.pages[v := Page(true, true, false, s.pages[v].clock, k)], use := s.use[v := Moving(k)])
  }

  lemma RegionInside(s: Machine, f: int, p: int)
    requires Sizes(s)
    ensures 0 <= f < |s.pages| ==>
        0 <= FrameAt(f) && FrameAt(f) + SECTORS_PER_PAGE <= |s.mem| && |Region(s.mem, FrameAt(f))| == SECTORS_PER_PAGE
    ensures 0 <= p < |s.swap| ==>
        0 <= SlotAt(s, p) && SlotAt(s, p) + SECTORS_PER_PAGE <= |s.disk|
        && |Region(s.disk, SlotAt(s, p))| == SECTORS_PER_PAGE
  {
  }

  /** The rest of the fault handler: the page, if there was one, is read into frame f and its place freed; the
      entry for k becomes present. */
  ghost function Arrive(s: Machine, k: Key, f: int): Machine
    requires Sizes(s) && 0 <= f < |s.pages|
  {
    var e := PteOf(s, k);
    RegionInside(s, f, e.base);
    var t := if 0 <= e.base < |s.slots| && s.slots[e.base] == Loading(k)
             then s.(mem := Copy(s.mem, FrameAt(f), Region(s.disk, SlotAt(s, e.base))),
                 swap := s.swap[e.base := false], slots := s.slots[e.base := Unused])
             else s.(flat := s.flat[k := Region(s.mem, FrameAt(f))]);
    t.(ptes := t.ptes[k := Pte(true, false, f)], use := t.use[f := Mapped(k)])
  }

  /** A user stores sector i of a present page. */
  ghost function Store(s: Machine, k: Key, i: int, x: Sector): Machine
    requires Sizes(s) && k in s.ptes && k in s.flat && 0 <= i < |s.flat[k]|
        && 0 <= FrameAt(s.ptes[k].base) + i < |s.mem|
  {
    s.(mem := s.mem[FrameAt(s.ptes[k].base) + i := x], flat := s.flat[k := s.flat[k][i := x]])
  }

  /** Destroy_User_Context drops one entry: its place in the paging file is given up, or its frame freed. */
  ghost function Drop(s: Machine, k: Key): Machine
    requires k in s.ptes && (s.ptes[k].present ==> 0 <= s.ptes[k].base < |s.pages| == |s.use|)
    requires !s.ptes[k].present && s.ptes[k].onDisk ==> 0 <= s.ptes[k].base < |s.swap| == |s.slots|
  {
    var e := s.ptes[k];
    var t := if e.present then FreeFrame(s, e.base)
             else if e.onDisk then s.(swap := s.swap[e.base := false], slots := s.slots[e.base := Unused])
             else s;
    t.(ptes := t.ptes - {k}, flat := t.flat - {k})
  }

  /** Free_Page. */
  ghost function FreeFrame(s: Machine, f: int): Machine
    requires 0 <= f < |s.pages| == |s.use|
  {
    s.(free := s.free + [f], pages := s.pages[f := s.pages[f].(taken := false, pageable := false)],
        use := s.use[f := Free])
  }

  /** Destroy_User_Context frees a page table, and at the end the directory. */
  ghost function DropTable(s: Machine, t: (int, int)): Machine
    requires t in s.tables && 0 <= s.tables[t] < |s.pages| == |s.use|
  {
    FreeFrame(s, s.tables[t]).(tables := s.tables - {t})
  }

  ghost function DropDir(s: Machine, c: int): Machine
    requires c in s.dirs && 0 <= s.dirs[c] < |s.pages| == |s.use|
  {
    FreeFrame(s, s.dirs[c]).(dirs := s.dirs - {c})
  }

  // ---------------------------------------------------------------------------------------------
  // Regions
  // ---------------------------------------------------------------------------------------------

  /** A page is eight sectors: frame f from sector 8 * f of memory on, place p from 8 * p sectors after the start of the
      paging file on. A page table has 1024 entries. */
  lemma Places(s: Machine, f: int, p: int, i: int)
    requires Sizes(s) && 0 <= i < 8
    ensures 0 <= f < |s.pages| ==> |Region(s.mem, FrameAt(f))| == 8 && 0 <= 8 * f + i < |s.mem|
                                   && Region(s.mem, FrameAt(f))[i] == s.mem[8 * f + i]
    ensures 0 <= p < |s.swap| ==> |Region(s.disk, SlotAt(s, p))| == 8 && 0 <= s.start + 8 * p + i < |s.disk|
                                  && Region(s.disk, SlotAt(s, p))[i] == s.disk[s.start + 8 * p + i]
    ensures forall k: Key :: TableOf(k) == (k.ctx, k.vpn / 1024)
  {
    RegionInside(s, f, p);
  }

  /** Copying a page changes that region and no other aligned one. */
  lemma CopyRegions(m: seq<Sector>, at: int, page: seq<Sector>, other: int)
    requires 0 <= at && at + SECTORS_PER_PAGE <= |m| && |page| == SECTORS_PER_PAGE
    ensures Region(Copy(m, at, page), at) == page
    ensures other + SECTORS_PER_PAGE <= at || at + SECTORS_PER_PAGE <= other ==>
        Region(Copy(m, at, page), other) == Region(m, other)
  {
    var r := Copy(m, at, page);
    assert Region(r, at) == page;
    if 0 <= other && other + SECTORS_PER_PAGE <= |m|
        && (other + SECTORS_PER_PAGE <= at || at + SECTORS_PER_PAGE <= other) {
      assert r[other..other + SECTORS_PER_PAGE] == m[other..other + SECTORS_PER_PAGE];
    }
  }

  lemma FramesApart(f: int, g: int)
    requires f != g
    ensures FrameAt(f) + SECTORS_PER_PAGE <= FrameAt(g) || FrameAt(g) + SECTORS_PER_PAGE <= FrameAt(f)
  {
  }

  lemma SlotsApart(s: Machine, p: int, q: int)
    requires p != q
    ensures SlotAt(s, p) + SECTORS_PER_PAGE <= SlotAt(s, q) || SlotAt(s, q) + SECTORS_PER_PAGE <= SlotAt(s, p)
  {
  }

  // ---------------------------------------------------------------------------------------------
  // Every transition keeps the invariant
  // ---------------------------------------------------------------------------------------------

  lemma FrameIs(s: Machine, f: int)
    requires Inv(s)
    ensures |s.pages| == |s.use|
    ensures 0 <= f < |s.use| ==> FrameOk(s, f)
    ensures f in s.free ==> 0 <= f < |s.pages|
  {
  }

  lemma SlotIs(s: Machine, p: int)
    requires Inv(s)
    ensures |s.swap| == |s.slots|
    ensures 0 <= p < |s.slots| ==> SlotOk(s, p)
  {
  }

  lemma KeyIs(s: Machine, k: Key)
    requires Inv(s)
    ensures KeyOk(s, k) && FlatOk(s, k)
  {
  }

  lemma TableIs(s: Machine, t: (int, int))
    requires Inv(s)
    ensures TableOk(s, t) && DirOk(s, t.0)
  {
  }

  /** The invariant, put together from its parts. */
  lemma Assemble(r: Machine)
    requires Sizes(r) && Distinct(r.free) && (forall f {:trigger f in r.free} :: f in r.free ==> 0 <= f < |r.pages|)
    requires forall f {:trigger FrameOk(r, f)} :: 0 <= f < |r.use| ==> FrameOk(r, f)
    requires forall p {:trigger SlotOk(r, p)} :: 0 <= p < |r.slots| ==> SlotOk(r, p)
    requires forall k {:trigger KeyOk(r, k)} :: KeyOk(r, k)
    requires forall k {:trigger FlatOk(r, k)} :: FlatOk(r, k)
    requires forall t {:trigger TableOk(r, t)} :: TableOk(r, t)
    requires forall c {:trigger DirOk(r, c)} :: DirOk(r, c)
    ensures Inv(r)
  {
    hide FrameOk, SlotOk, KeyOk, FlatOk, TableOk, DirOk;
    forall f | 0 <= f < |r.use| ensures FrameOk(r, f) {}
    forall p | 0 <= p < |r.slots| ensures SlotOk(r, p) {}
    forall k ensures KeyOk(r, k) && FlatOk(r, k) {}
    forall t ensures TableOk(r, t) {}
    forall c ensures DirOk(r, c) {}
  }

  lemma InvSizes(s: Machine)
    requires Inv(s)
    ensures Sizes(s) && Distinct(s.free) && forall f {:trigger f in s.free} :: f in s.free ==> 0 <= f < |s.pages|
  {
  }

  /** The front of the free list is taken off. */
  lemma FrontOff(s: Machine)
    requires Inv(s) && s.free != []
    ensures 0 <= s.free[0] < |s.pages| && s.use[s.free[0]].Free? && Distinct(s.free[1..])
    ensures forall f {:trigger f in s.free[1..]} :: f in s.free[1..] <==> f in s.free && f != s.free[0]
  {
    FrameIs(s, s.free[0]);
    assert s.free[0] in s.free;
    TailFacts(s.free);
  }

  // Taking a frame: what differs is the frame and what names it.

  ghost predicate CanTake(s: Machine, u: Use) {
    match u
    case Moving(k) => !PteOf(s, k).present
    case Table(c, i) => (c, i) !in s.tables && c in s.dirs && 512 <= i < 1024
    case Dir(c) => c !in s.dirs
    case _ => false
  }

  lemma TakenFrames(s: Machine, r: Machine, u: Use)
    requires Inv(s) && s.free != [] && CanTake(s, u)
    requires var f := s.free[0];
             && 0 <= f < |s.pages| == |s.use|
             && r == match u
                     case Moving(k) => Claimed(s, k)
                     case Table(c, i) => AddTable(s, (c, i))
                     case Dir(c) => AddDir(s, c)
                     case _ => s
    ensures Distinct(r.free) && (forall f {:trigger f in r.free} :: f in r.free ==> 0 <= f < |r.pages|)
    ensures forall f {:trigger FrameOk(r, f)} :: 0 <= f < |r.use| ==> FrameOk(r, f)
  {
    hide Inv, Copy, Region;
    InvSizes(s);
    FrontOff(s);
    forall g | 0 <= g < |r.use| ensures FrameOk(r, g) {
      FrameIs(s, g);
    }
  }

  lemma ClaimedKeeps(s: Machine, k: Key)
    requires Inv(s) && s.free != [] && 0 <= s.free[0] < |s.pages| == |s.use| && !PteOf(s, k).present
    ensures Inv(Claimed(s, k))
  {
    hide Inv;
    InvSizes(s);
    var r := Claimed(s, k);
    FrontOff(s);
    TakenFrames(s, r, Moving(k));
    assert r.ptes == s.ptes && r.slots == s.slots && r.flat == s.flat && r.tables == s.tables && r.dirs == s.dirs;
    forall j ensures KeyOk(r, j) && FlatOk(r, j) { KeyIs(s, j); }
    forall t ensures TableOk(r, t) && DirOk(r, t.0) { TableIs(s, t); }
    forall c ensures DirOk(r, c) { TableIs(s, (c, 0)); }
    forall p | 0 <= p < |r.slots| ensures SlotOk(r, p) { SlotIs(s, p); }
    hide FrameOk, KeyOk, FlatOk, TableOk, DirOk, SlotOk, Copy, Region, Distinct;
    Assemble(r);
  }

  lemma AddTableKeeps(s: Machine, t: (int, int))
    requires Inv(s) && s.free != [] && 0 <= s.free[0] < |s.pages| == |s.use| && CanTake(s, Table(t.0, t.1))
    ensures Inv(AddTable(s, t))
  {
    hide Inv;
    InvSizes(s);
    var r := AddTable(s, t);
    FrontOff(s);
    TakenFrames(s, r, Table(t.0, t.1));
    forall j ensures KeyOk(r, j) && FlatOk(r, j) { KeyIs(s, j); }
    forall u ensures TableOk(r, u) && DirOk(r, u.0) { TableIs(s, u); }
    forall c ensures DirOk(r, c) { TableIs(s, (c, 0)); }
    forall p | 0 <= p < |r.slots| ensures SlotOk(r, p) { SlotIs(s, p); }
    hide FrameOk, KeyOk, FlatOk, TableOk, DirOk, SlotOk, Copy, Region, Distinct;
    Assemble(r);
  }

  lemma AddDirKeeps(s: Machine, c: int)
    requires Inv(s) && s.free != [] && 0 <= s.free[0] < |s.pages| == |s.use| && c !in s.dirs
    ensures Inv(AddDir(s, c))
  {
    hide Inv;
    InvSizes(s);
    var r := AddDir(s, c);
    FrontOff(s);
    TakenFrames(s, r, Dir(c));
    forall j ensures KeyOk(r, j) && FlatOk(r, j) { KeyIs(s, j); }
    forall u ensures TableOk(r, u) && DirOk(r, u.0) { TableIs(s, u); }
    forall d ensures DirOk(r, d) { TableIs(s, (d, 0)); }
    forall p | 0 <= p < |r.slots| ensures SlotOk(r, p) { SlotIs(s, p); }
    hide FrameOk, KeyOk, FlatOk, TableOk, DirOk, SlotOk, Copy, Region, Distinct;
    Assemble(r);
  }

  /** What eviction needs: frame v holds a page, place p is unused, and k is not there yet. */
  ghost predicate CanEvict(s: Machine, k: Key, v: int, p: int) {
    Sizes(s) && 0 <= v < |s.pages| && s.use[v].Mapped? && 0 <= p < |s.swap| && s.slots[p].Unused?
        && !PteOf(s, k).present
  }

  lemma PagedOutFrame(s: Machine, k: Key, v: int, p: int, f: int)
    requires Inv(s) && CanEvict(s, k, v, p) && 0 <= f < |s.use|
    ensures FrameOk(PagedOut(s, k, v, p), f)
  {
    hide Inv, Copy, Region;
    FrameIs(s, f);
    FrameIs(s, v);
  }

  lemma PagedOutSlot(s: Machine, k: Key, v: int, p: int, q: int)
    requires Inv(s) && CanEvict(s, k, v, p) && 0 <= q < |s.slots|
    ensures SlotOk(PagedOut(s, k, v, p), q)
  {
    hide Inv, Copy, Region;
    FrameIs(s, v);
    SlotIs(s, q);
    SlotIs(s, p);
  }

  lemma PagedOutKey(s: Machine, k: Key, v: int, p: int, j: Key)
    requires Inv(s) && CanEvict(s, k, v, p)
    ensures KeyOk(PagedOut(s, k, v, p), j)
  {
    hide Inv, Copy, Region;
    FrameIs(s, v);
    KeyIs(s, j);
  }

  lemma PagedOutFlat(s: Machine, k: Key, v: int, p: int, j: Key)
    requires Inv(s) && CanEvict(s, k, v, p)
    ensures FlatOk(PagedOut(s, k, v, p), j)
  {
    hide Inv, Copy, Region;
    FrameIs(s, v);
    KeyIs(s, j);
    KeyIs(s, s.use[v].k);
    RegionInside(s, v, p);
    PagedOutSlots(s, v, p, p);
    PagedOutSlots(s, v, p, PteOf(s, j).base);
    PagedOutKey(s, k, v, p, j);
  }

  lemma PagedOutSlots(s: Machine, v: int, p: int, q: int)
    requires Sizes(s) && 0 <= v < |s.pages| && 0 <= p < |s.swap| && |Region(s.mem, FrameAt(v))| == SECTORS_PER_PAGE
    requires 0 <= SlotAt(s, p) && SlotAt(s, p) + SECTORS_PER_PAGE <= |s.disk|
    ensures var d := Copy(s.disk, SlotAt(s, p), Region(s.mem, FrameAt(v)));
            Region(d, SlotAt(s, q)) == if q == p then Region(s.mem, FrameAt(v)) else Region(s.disk, SlotAt(s, q))
  {
    CopyRegions(s.disk, SlotAt(s, p), Region(s.mem, FrameAt(v)), SlotAt(s, q));
    if q != p { SlotsApart(s, p, q); }
  }

  /** Evicting moves the page, and the user cannot tell. */
  lemma PagedOutKeeps(s: Machine, k: Key, v: int, p: int)
    requires Inv(s) && CanEvict(s, k, v, p)
    ensures Inv(PagedOut(s, k, v, p)) && PagedOut(s, k, v, p).flat == s.flat
  {
    hide Inv;
    InvSizes(s);
    var r := PagedOut(s, k, v, p);
    RegionInside(s, v, p);
    forall f | 0 <= f < |r.use| ensures FrameOk(r, f) { PagedOutFrame(s, k, v, p, f); }
    forall q | 0 <= q < |r.slots| ensures SlotOk(r, q) { PagedOutSlot(s, k, v, p, q); }
    forall j ensures KeyOk(r, j) && FlatOk(r, j) { PagedOutKey(s, k, v, p, j); PagedOutFlat(s, k, v, p, j); }
    forall u ensures TableOk(r, u) && DirOk(r, u.0) { TableIs(s, u); FrameIs(s, v); }
    forall c ensures DirOk(r, c) { TableIs(s, (c, 0)); }
    hide FrameOk, KeyOk, FlatOk, TableOk, DirOk, SlotOk, Copy, Region, Distinct;
    Assemble(r);
  }

  lemma FetchingSlot(s: Machine, k: Key, q: int)
    requires Inv(s) && !PteOf(s, k).present && 0 <= q < |s.slots|
    ensures SlotOk(Fetching(s, k), q)
  {
    hide Inv, Copy, Region;
    KeyIs(s, k);
    SlotIs(s, q);
  }

  lemma FetchingFrame(s: Machine, k: Key, f: int)
    requires Inv(s) && !PteOf(s, k).present && 0 <= f < |s.use|
    ensures FrameOk(Fetching(s, k), f)
  {
    hide Inv, Copy, Region;
    FrameIs(s, f);
  }

  lemma FetchingKey(s: Machine, k: Key, j: Key)
    requires Inv(s) && !PteOf(s, k).present
    ensures KeyOk(Fetching(s, k), j) && FlatOk(Fetching(s, k), j)
  {
    hide Inv, Copy, Region;
    KeyIs(s, k);
    KeyIs(s, j);
  }

  lemma FetchingKeeps(s: Machine, k: Key)
    requires Inv(s) && !PteOf(s, k).present
    ensures Inv(Fetching(s, k)) && Fetching(s, k).flat == s.flat
  {
    hide Inv;
    InvSizes(s);
    var r := Fetching(s, k);
    forall f | 0 <= f < |r.use| ensures FrameOk(r, f) { FetchingFrame(s, k, f); }
    forall q | 0 <= q < |r.slots| ensures SlotOk(r, q) { FetchingSlot(s, k, q); }
    forall j ensures KeyOk(r, j) && FlatOk(r, j) { FetchingKey(s, k, j); }
    forall u ensures TableOk(r, u) && DirOk(r, u.0) { TableIs(s, u); }
    forall c ensures DirOk(r, c) { TableIs(s, (c, 0)); }
    hide FrameOk, KeyOk, FlatOk, TableOk, DirOk, SlotOk, Copy, Region, Distinct;
    Assemble(r);
  }

  /** Frame f has been taken for k, alone, and k's page is on its way if it was on disk. */
  ghost predicate CanArrive(s: Machine, k: Key, f: int) {
    && Sizes(s) && 0 <= f < |s.pages| && s.use[f] == Moving(k) && TableOf(k) in s.tables && !PteOf(s, k).onDisk
    && (forall g {:trigger s.use[g]} :: 0 <= g < |s.use| && s.use[g].Moving? ==> g == f)
    && (k !in s.flat || (0 <= PteOf(s, k).base < |s.slots| && s.slots[PteOf(s, k).base] == Loading(k)))
  }

  lemma ArriveFrame(s: Machine, k: Key, f: int, g: int)
    requires Inv(s) && CanArrive(s, k, f) && 0 <= g < |s.use|
    ensures FrameOk(Arrive(s, k, f), g)
  {
    hide Inv, Copy, Region;
    FrameIs(s, f);
    FrameIs(s, g);
  }

  lemma ArriveSlot(s: Machine, k: Key, f: int, q: int)
    requires Inv(s) && CanArrive(s, k, f) && 0 <= q < |s.slots|
    ensures SlotOk(Arrive(s, k, f), q)
  {
    hide Inv, Copy, Region;
    FrameIs(s, f);
    SlotIs(s, q);
    SlotIs(s, PteOf(s, k).base);
  }

  lemma ArriveKey(s: Machine, k: Key, f: int, j: Key)
    requires Inv(s) && CanArrive(s, k, f)
    ensures KeyOk(Arrive(s, k, f), j)
  {
    hide Inv, Copy, Region;
    FrameIs(s, f);
    KeyIs(s, j);
    KeyIs(s, k);
    SlotIs(s, PteOf(s, k).base);
  }

  lemma ArriveRegion(s: Machine, f: int, g: int, page: seq<Sector>)
    requires Sizes(s) && 0 <= f < |s.pages| && |page| == SECTORS_PER_PAGE
    requires 0 <= FrameAt(f) && FrameAt(f) + SECTORS_PER_PAGE <= |s.mem|
    ensures Region(Copy(s.mem, FrameAt(f), page), FrameAt(g)) == if g == f then page else Region(s.mem, FrameAt(g))
  {
    CopyRegions(s.mem, FrameAt(f), page, FrameAt(g));
    if g != f { FramesApart(f, g); }
  }

  lemma ArriveFlat(s: Machine, k: Key, f: int, j: Key)
    requires Inv(s) && CanArrive(s, k, f)
    ensures FlatOk(Arrive(s, k, f), j)
  {
    hide Inv, Copy, Region;
    FrameIs(s, f);
    KeyIs(s, j);
    KeyIs(s, k);
    RegionInside(s, f, PteOf(s, k).base);
    var page := Region(s.disk, SlotAt(s, PteOf(s, k).base));
    if |page| == SECTORS_PER_PAGE {
      ArriveRegion(s, f, f, page);
      ArriveRegion(s, f, PteOf(s, j).base, page);
    }
  }

  /** Paging in brings back what was there: the user's memory is the same, or has gained a page. */
  lemma ArriveKeeps(s: Machine, k: Key, f: int)
    requires Inv(s) && CanArrive(s, k, f)
    ensures Inv(Arrive(s, k, f))
    ensures k in s.flat ==> Arrive(s, k, f).flat == s.flat
    ensures k !in s.flat ==> k in Arrive(s, k, f).flat && Arrive(s, k, f).flat - {k} == s.flat
  {
    hide Inv;
    InvSizes(s);
    var r := Arrive(s, k, f);
    RegionInside(s, f, PteOf(s, k).base);
    KeyIs(s, k);
    SlotIs(s, PteOf(s, k).base);
    forall g | 0 <= g < |r.use| ensures FrameOk(r, g) { ArriveFrame(s, k, f, g); }
    forall q | 0 <= q < |r.slots| ensures SlotOk(r, q) { ArriveSlot(s, k, f, q); }
    forall j ensures KeyOk(r, j) && FlatOk(r, j) { ArriveKey(s, k, f, j); ArriveFlat(s, k, f, j); }
    forall u ensures TableOk(r, u) && DirOk(r, u.0) { TableIs(s, u); FrameIs(s, f); }
    forall c ensures DirOk(r, c) { TableIs(s, (c, 0)); }
    hide FrameOk, KeyOk, FlatOk, TableOk, DirOk, SlotOk, Copy, Region, Distinct;
    Assemble(r);
  }

  lemma StoreFlat(s: Machine, k: Key, i: int, x: Sector, j: Key)
    requires Inv(s) && CanStore(s, k, i)
    ensures FlatOk(Store(s, k, i, x), j)
  {
    hide Inv;
    InvSizes(s);
    KeyIs(s, j);
    KeyIs(s, k);
    RegionInside(s, PteOf(s, k).base, 0);
    RegionInside(s, PteOf(s, j).base, 0);
    if PteOf(s, j).base != PteOf(s, k).base { FramesApart(PteOf(s, j).base, PteOf(s, k).base); }
  }

  ghost predicate CanStore(s: Machine, k: Key, i: int) {
    Sizes(s) && k in s.ptes && s.ptes[k].present && k in s.flat && 0 <= i < |s.flat[k]|
        && 0 <= FrameAt(s.ptes[k].base) + i < |s.mem|
  }

  /** A store to a present page changes that sector of the user's memory and nothing else. */
  lemma StoreKeeps(s: Machine, k: Key, i: int, x: Sector)
    requires Inv(s) && CanStore(s, k, i)
    ensures Inv(Store(s, k, i, x)) && Store(s, k, i, x).flat == s.flat[k := s.flat[k][i := x]]
  {
    hide Inv;
    InvSizes(s);
    var r := Store(s, k, i, x);
    KeyIs(s, k);
    forall g | 0 <= g < |r.use| ensures FrameOk(r, g) { FrameIs(s, g); }
    forall q | 0 <= q < |r.slots| ensures SlotOk(r, q) { SlotIs(s, q); }
    forall j ensures KeyOk(r, j) && FlatOk(r, j) { KeyIs(s, j); StoreFlat(s, k, i, x, j); }
    forall u ensures TableOk(r, u) && DirOk(r, u.0) { TableIs(s, u); }
    forall c ensures DirOk(r, c) { TableIs(s, (c, 0)); }
    hide FrameOk, KeyOk, FlatOk, TableOk, DirOk, SlotOk, Region, Distinct;
    Assemble(r);
  }

  lemma AppendOff(q: seq<int>, f: int)
    requires Distinct(q) && f !in q
    ensures Distinct(q + [f])
    ensures forall g {:trigger g in q + [f]} :: g in q + [f] <==> g in q || g == f
  {
  }

  /** An entry may be dropped while its page is not on its way. */
  ghost predicate CanDrop(s: Machine, k: Key) {
    && Sizes(s) && k in s.ptes && (s.ptes[k].present ==> 0 <= s.ptes[k].base < |s.pages|)
    && (!s.ptes[k].present && s.ptes[k].onDisk ==> 0 <= s.ptes[k].base < |s.swap|)
    && Quiet(s)
  }

  lemma DropFrame(s: Machine, k: Key, g: int)
    requires Inv(s) && CanDrop(s, k) && 0 <= g < |s.use|
    ensures FrameOk(Drop(s, k), g)
  {
    hide Inv;
    FrameIs(s, g);
    KeyIs(s, k);
    InvSizes(s);
    if g !in s.free { AppendOff(s.free, g); }
    hide Distinct;
  }

  lemma DropSlot(s: Machine, k: Key, q: int)
    requires Inv(s) && CanDrop(s, k) && 0 <= q < |s.slots|
    ensures SlotOk(Drop(s, k), q)
  {
    hide Inv;
    SlotIs(s, q);
    KeyIs(s, k);
  }

  lemma DropKey(s: Machine, k: Key, j: Key)
    requires Inv(s) && CanDrop(s, k)
    ensures KeyOk(Drop(s, k), j) && FlatOk(Drop(s, k), j)
  {
    hide Inv;
    KeyIs(s, j);
    KeyIs(s, k);
  }

  lemma DropFree(s: Machine, k: Key)
    requires Inv(s) && CanDrop(s, k)
    ensures var r := Drop(s, k); Distinct(r.free) && forall f {:trigger f in r.free} :: f in r.free ==>
        0 <= f < |r.pages|
  {
    hide Inv;
    InvSizes(s);
    KeyIs(s, k);
    var e := s.ptes[k];
    if e.present {
      FrameIs(s, e.base);
      AppendOff(s.free, e.base);
    }
    hide Distinct;
  }

  lemma DropKeeps(s: Machine, k: Key)
    requires Inv(s) && CanDrop(s, k)
    ensures Inv(Drop(s, k)) && Quiet(Drop(s, k)) && Drop(s, k).flat == s.flat - {k}
  {
    hide Inv;
    InvSizes(s);
    var r := Drop(s, k);
    DropFree(s, k);
    KeyIs(s, k);
    forall g | 0 <= g < |r.use| ensures FrameOk(r, g) { DropFrame(s, k, g); }
    forall q | 0 <= q < |r.slots| ensures SlotOk(r, q) { DropSlot(s, k, q); }
    forall j ensures KeyOk(r, j) && FlatOk(r, j) { DropKey(s, k, j); }
    forall u ensures TableOk(r, u) && DirOk(r, u.0) { TableIs(s, u); }
    forall c ensures DirOk(r, c) { TableIs(s, (c, 0)); }
    hide FrameOk, KeyOk, FlatOk, TableOk, DirOk, SlotOk, Region, Distinct;
    Assemble(r);
  }

  /** A table with no entries left can go. */
  lemma DropTableKeeps(s: Machine, t: (int, int))
    requires Inv(s) && Quiet(s) && t in s.tables && 0 <= s.tables[t] < |s.pages| == |s.use|
    requires forall k {:trigger k in s.ptes} :: k in s.ptes ==> TableOf(k) != t
    ensures Inv(DropTable(s, t)) && Quiet(DropTable(s, t))
  {
    hide Inv;
    InvSizes(s);
    TableIs(s, t);
    var r, f := DropTable(s, t), s.tables[t];
    FrameIs(s, f);
    AppendOff(s.free, f);
    forall g | 0 <= g < |r.use| ensures FrameOk(r, g) { FrameIs(s, g); }
    forall q | 0 <= q < |r.slots| ensures SlotOk(r, q) { SlotIs(s, q); }
    forall j ensures KeyOk(r, j) && FlatOk(r, j) { KeyIs(s, j); }
    forall u ensures TableOk(r, u) && DirOk(r, u.0) { TableIs(s, u); }
    forall c ensures DirOk(r, c) { TableIs(s, (c, 0)); }
    hide FrameOk, KeyOk, FlatOk, TableOk, DirOk, SlotOk, Region, Distinct;
    Assemble(r);
  }

  lemma DropDirKeeps(s: Machine, c: int)
    requires Inv(s) && Quiet(s) && c in s.dirs && 0 <= s.dirs[c] < |s.pages| == |s.use|
    requires forall t {:trigger t in s.tables} :: t in s.tables ==> t.0 != c
    ensures Inv(DropDir(s, c)) && Quiet(DropDir(s, c))
  {
    hide Inv;
    InvSizes(s);
    TableIs(s, (c, 0));
    var r, f := DropDir(s, c), s.dirs[c];
    FrameIs(s, f);
    AppendOff(s.free, f);
    forall g | 0 <= g < |r.use| ensures FrameOk(r, g) { FrameIs(s, g); }
    forall q | 0 <= q < |r.slots| ensures SlotOk(r, q) { SlotIs(s, q); }
    forall j ensures KeyOk(r, j) && FlatOk(r, j) { KeyIs(s, j); }
    forall u ensures TableOk(r, u) && DirOk(r, u.0) { TableIs(s, u); }
    forall d ensures DirOk(r, d) { TableIs(s, (d, 0)); }
    hide FrameOk, KeyOk, FlatOk, TableOk, DirOk, SlotOk, Region, Distinct;
    Assemble(r);
  }

  // ---------------------------------------------------------------------------------------------
  // A whole fault, and a whole context
  // ---------------------------------------------------------------------------------------------

  /** The user memory after k has been touched: the same, with at most a page for k added. */
  ghost predicate SameMemory(s: Machine, r: Machine, k: Key) {
    k in r.flat && r.flat - {k} == s.flat - {k} && (k in s.flat ==> r.flat[k] == s.flat[k])
  }

  /** The machine while the fault for k is being handled, with frame f for it. */
  ghost predicate Handling(s: Machine, k: Key, f: int) {
    && Inv(s) && CanArrive(s, k, f)
    && (forall p {:trigger s.slots[p]} :: 0 <= p < |s.slots| && s.slots[p].Loading? ==> s.slots[p] == Loading(k))
  }

  ghost predicate NoneLoading(s: Machine) {
    forall p {:trigger s.slots[p]} :: 0 <= p < |s.slots| ==> !s.slots[p].Loading?
  }

  lemma ClaimHandles(s: Machine, k: Key)
    requires Inv(s) && Quiet(s) && s.free != [] && 0 <= s.free[0] < |s.pages| == |s.use| && !PteOf(s, k).present
        && TableOf(k) in s.tables
    ensures Handling(Fetching(Claimed(s, k), k), k, s.free[0]) && Fetching(Claimed(s, k), k).flat == s.flat
    ensures !PteOf(s, k).onDisk ==> NoneLoading(Fetching(Claimed(s, k), k))
  {
    hide Inv;
    InvSizes(s);
    ClaimedKeeps(s, k);
    FetchingKeeps(Claimed(s, k), k);
    KeyIs(s, k);
    SlotIs(s, PteOf(s, k).base);
    hide Region, Distinct;
  }

  lemma EvictHandles(s: Machine, k: Key, v: int, p: int)
    requires Inv(s) && Quiet(s) && CanEvict(s, k, v, p) && TableOf(k) in s.tables
    ensures Handling(Fetching(PagedOut(s, k, v, p), k), k, v) && Fetching(PagedOut(s, k, v, p), k).flat == s.flat
    ensures !PteOf(s, k).onDisk ==> NoneLoading(Fetching(PagedOut(s, k, v, p), k))
  {
    hide Inv, Copy;
    InvSizes(s);
    FrameIs(s, v);
    KeyIs(s, k);
    SlotIs(s, PteOf(s, k).base);
    PagedOutKeeps(s, k, v, p);
    FetchingKeeps(PagedOut(s, k, v, p), k);
    RegionInside(s, v, p);
    hide Region, Distinct;
  }

  /** While a frame is found for k, every other page stays where it is. */
  ghost predicate NoneLeaves(s: Machine, r: Machine, k: Key) {
    r.mem == s.mem && r.disk == s.disk && forall j :: j != k ==> PteOf(r, j) == PteOf(s, j)
  }

  /** One page leaves memory: that of frame f, which no page in memory has waited longer than, for a place in the paging
      file that was unused; every other page stays where it is. */
  ghost predicate OldestLeaves(s: Machine, r: Machine, k: Key, f: int) {
    && 0 <= f < |s.pages| == |s.use| && s.use[f].Mapped?
    && (forall g :: 0 <= g < |s.pages| && s.use[g].Mapped? ==> s.pages[f].clock <= s.pages[g].clock)
    && var kv := s.use[f].k;
       && kv != k && PteOf(s, kv) == Pte(true, false, f)
       && !PteOf(r, kv).present && PteOf(r, kv).onDisk && 0 <= PteOf(r, kv).base < |s.swap|
           && !s.swap[PteOf(r, kv).base]
       && r.mem == s.mem && forall j :: j != k && j != kv ==> PteOf(r, j) == PteOf(s, j)
  }

  lemma ClaimLeaves(s: Machine, k: Key)
    requires Inv(s) && s.free != [] && 0 <= s.free[0] < |s.pages| == |s.use|
    ensures NoneLeaves(s, Fetching(Claimed(s, k), k), k)
  {
  }

  lemma EvictLeaves(s: Machine, k: Key, v: int, p: int)
    requires Inv(s) && CanEvict(s, k, v, p)
    requires forall g :: 0 <= g < |s.pages| && s.use[g].Mapped? ==> s.pages[v].clock <= s.pages[g].clock
    ensures OldestLeaves(s, Fetching(PagedOut(s, k, v, p), k), k, v)
  {
    hide Inv, Copy, Region;
    FrameIs(s, v);
    SlotIs(s, p);
    KeyIs(s, s.use[v].k);
  }

  lemma ArriveQuiet(s: Machine, k: Key, f: int)
    requires Handling(s, k, f)
    ensures Inv(Arrive(s, k, f)) && Quiet(Arrive(s, k, f)) && SameMemory(s, Arrive(s, k, f), k)
    ensures k in Arrive(s, k, f).ptes && Arrive(s, k, f).ptes[k].present
  {
    hide Inv;
    ArriveKeeps(s, k, f);
    InvSizes(s);
    var r := Arrive(s, k, f);
    RegionInside(s, f, PteOf(s, k).base);
    forall p | 0 <= p < |r.slots| ensures !r.slots[p].Loading? {
      if s.slots[p] == Loading(k) { SlotIs(s, p); KeyIs(s, k); }
    }
    hide Copy, Region;
  }

  /** A use of context c, for a page below n or a table below m. */
  predicate Held(u: Use, c: int, n: int, m: int) {
    (u.Mapped? && u.k.ctx == c && u.k.vpn < n) || (u.Table? && u.ctx == c && u.i < m)
  }

  /** r is s without context c's pages below n and its tables below m: exactly their frames are free, exactly
      their places in the paging file unused. */
  ghost predicate Gone(s: Machine, r: Machine, c: int, n: int, m: int) {
    && |r.use| == |s.use| && |r.slots| == |s.slots| && r.dirs == s.dirs
    && (forall k {:trigger k in r.ptes} {:trigger k in s.ptes} :: k in r.ptes <==>
        k in s.ptes && !(k.ctx == c && k.vpn < n))
    && (forall k {:trigger r.ptes[k]} :: k in r.ptes ==> k in s.ptes && r.ptes[k] == s.ptes[k])
    && (forall k {:trigger k in r.flat} :: k in r.flat <==> k in s.flat && !(k.ctx == c && k.vpn < n))
    && (forall k {:trigger r.flat[k]} :: k in r.flat ==> k in s.flat && r.flat[k] == s.flat[k])
    && (forall t {:trigger t in r.tables} :: t in r.tables <==> t in s.tables && !(t.0 == c && t.1 < m))
    && (forall t {:trigger r.tables[t]} :: t in r.tables ==> t in s.tables && r.tables[t] == s.tables[t])
    && (forall f {:trigger r.use[f]} :: 0 <= f < |s.use| ==> r.use[f] == if Held(s.use[f], c, n, m) then Free
        else s.use[f])
    && (forall p {:trigger r.slots[p]} :: 0 <= p < |s.slots| ==>
          r.slots[p] == if s.slots[p].Holds? && s.slots[p].k.ctx == c && s.slots[p].k.vpn < n then Unused
              else s.slots[p])
  }

  lemma NothingGone(s: Machine, c: int)
    requires Inv(s)
    ensures Gone(s, s, c, 1024 * 512, 512)
  {
    hide Inv;
    forall k | k in s.ptes ensures k.vpn >= 1024 * 512 { KeyIs(s, k); TableIs(s, TableOf(k)); }
    forall k | k in s.flat ensures k.vpn >= 1024 * 512 { KeyIs(s, k); TableIs(s, TableOf(k)); }
    forall t | t in s.tables ensures t.1 >= 512 { TableIs(s, t); }
    forall f | 0 <= f < |s.use| ensures !Held(s.use[f], c, 1024 * 512, 512) {
      FrameIs(s, f);
      if s.use[f].Mapped? { KeyIs(s, s.use[f].k); TableIs(s, TableOf(s.use[f].k)); }
      if s.use[f].Table? { TableIs(s, (s.use[f].ctx, s.use[f].i)); }
    }
    forall p | 0 <= p < |s.slots| ensures s.slots[p].Holds? ==> s.slots[p].k.vpn >= 1024 * 512 {
      SlotIs(s, p);
      if s.slots[p].Holds? { KeyIs(s, s.slots[p].k); TableIs(s, TableOf(s.slots[p].k)); }
    }
  }

  /** Page n of context c has an entry: dropping it is one step on. */
  lemma DropGoes(s: Machine, r: Machine, c: int, n: int, m: int)
    requires Inv(s) && Inv(r) && Quiet(r) && Gone(s, r, c, n, m) && Key(c, n) in r.ptes
    ensures CanDrop(r, Key(c, n)) && Gone(s, Drop(r, Key(c, n)), c, n + 1, m)
  {
    hide Inv;
    var k := Key(c, n);
    InvSizes(r);
    KeyIs(r, k);
    KeyIs(s, k);
    forall f | 0 <= f < |s.use|
      ensures Drop(r, k).use[f] == if Held(s.use[f], c, n + 1, m) then Free else s.use[f]
    {
      FrameIs(r, f);
      FrameIs(s, f);
    }
    forall p | 0 <= p < |s.slots|
      ensures Drop(r, k).slots[p] == if s.slots[p].Holds? && s.slots[p].k.ctx == c && s.slots[p].k.vpn < n + 1
          then Unused else s.slots[p] {
      SlotIs(r, p);
      SlotIs(s, p);
    }
  }

  /** Page n has none. */
  lemma NoEntryGoes(s: Machine, r: Machine, c: int, n: int, m: int)
    requires Inv(s) && Gone(s, r, c, n, m) && Key(c, n) !in r.ptes
    ensures Gone(s, r, c, n + 1, m)
  {
    hide Inv;
    var k := Key(c, n);
    assert k !in s.ptes;
    KeyIs(s, k);
    assert forall j: Key :: j.ctx == c && j.vpn == n ==> j == k;
    forall f | 0 <= f < |s.use| ensures Held(s.use[f], c, n + 1, m) == Held(s.use[f], c, n, m) { FrameIs(s, f); }
    forall p | 0 <= p < |s.slots| ensures s.slots[p].Holds? ==> s.slots[p].k != k { SlotIs(s, p); }
  }

  /** No table m: its pages have no entries, so all of them are gone. */
  lemma NoTableGoes(s: Machine, r: Machine, c: int, m: int)
    requires Inv(s) && Gone(s, r, c, TABLE_ENTRIES * m, m) && (c, m) !in r.tables
    ensures Gone(s, r, c, TABLE_ENTRIES * (m + 1), m + 1)
  {
    hide Inv;
    assert (c, m) !in s.tables;
    forall j | j in s.ptes && j.ctx == c && j.vpn < TABLE_ENTRIES * (m + 1) ensures j.vpn < TABLE_ENTRIES * m {
      KeyIs(s, j);
      assert TableOf(j) in s.tables && TableOf(j) != (c, m);
    }
    forall j | j in s.flat && j.ctx == c && j.vpn < TABLE_ENTRIES * (m + 1) ensures j.vpn < TABLE_ENTRIES * m {
      KeyIs(s, j);
      assert j in s.ptes;
    }
    forall f | 0 <= f < |s.use|
      ensures Held(s.use[f], c, TABLE_ENTRIES * (m + 1), m + 1) == Held(s.use[f], c, TABLE_ENTRIES * m, m)
    {
      FrameIs(s, f);
      if s.use[f].Mapped? { assert s.use[f].k in s.ptes; }
    }
    forall p | 0 <= p < |s.slots| && s.slots[p].Holds? ensures s.slots[p].k in s.ptes { SlotIs(s, p); }
  }

  /** Table m, its entries dropped, is freed. */
  lemma TableGoes(s: Machine, r: Machine, c: int, m: int)
    requires Inv(s) && Inv(r) && Quiet(r) && Gone(s, r, c, TABLE_ENTRIES * (m + 1), m) && (c, m) in r.tables
    ensures 0 <= r.tables[(c, m)] < |r.pages| == |r.use|
    ensures Enabled(r, ForgetTable((c, m)))
    ensures var d := DropTable(r, (c, m)); Inv(d) && Quiet(d) && Gone(s, d, c, TABLE_ENTRIES * (m + 1), m + 1)
  {
    hide Inv;
    InvSizes(r);
    TableIs(r, (c, m));
    TableIs(s, (c, m));
    forall k | k in r.ptes ensures TableOf(k) != (c, m) { KeyIs(s, k); }
    DropTableKeeps(r, (c, m));
    var d := DropTable(r, (c, m));
    forall f | 0 <= f < |s.use|
      ensures d.use[f] == if Held(s.use[f], c, TABLE_ENTRIES * (m + 1), m + 1) then Free else s.use[f]
    {
      FrameIs(s, f);
      FrameIs(r, f);
    }
  }

  /** What a context holds. */
  predicate Owned(u: Use, c: int) {
    (u.Mapped? && u.k.ctx == c) || (u.Table? && u.ctx == c) || (u.Dir? && u.ctx == c)
  }

  /** Context c is gone: exactly the frames it held are free, exactly its places in the paging file unused, and
      everyone else's memory is as it was. */
  ghost predicate Destroyed(s: Machine, r: Machine, c: int) {
    && |r.use| == |s.use| && |r.slots| == |s.slots|
    && (forall f {:trigger r.use[f]} :: 0 <= f < |s.use| ==> r.use[f] == if Owned(s.use[f], c) then Free else s.use[f])
    && (forall p {:trigger r.slots[p]} :: 0 <= p < |s.slots| ==>
        r.slots[p] == if s.slots[p].Holds? && s.slots[p].k.ctx == c then Unused else s.slots[p])
    && (forall k {:trigger k in r.flat} :: k in r.flat <==> k in s.flat && k.ctx != c)
    && (forall k {:trigger r.flat[k]} :: k in r.flat ==> k in s.flat && r.flat[k] == s.flat[k])
  }

  lemma VpnBound(s: Machine, k: Key)
    requires Inv(s) && k in s.ptes
    ensures k.vpn < TABLE_ENTRIES * 1024
  {
    hide Inv;
    KeyIs(s, k);
    TableIs(s, TableOf(k));
  }

  lemma DirGoes(s: Machine, r: Machine, c: int)
    requires Inv(s) && Inv(r) && Quiet(r) && Quiet(s) && Gone(s, r, c, TABLE_ENTRIES * 1024, 1024) && c in r.dirs
    ensures 0 <= r.dirs[c] < |r.pages| == |r.use|
    ensures Enabled(r, ForgetDir(c))
    ensures var d := DropDir(r, c); Inv(d) && Quiet(d) && Destroyed(s, d, c)
  {
    hide Inv, Quiet;
    InvSizes(r);
    TableIs(r, (c, 0));
    forall t | t in r.tables ensures t.0 != c { TableIs(s, t); }
    DropDirKeeps(r, c);
    var d := DropDir(r, c);
    forall f | 0 <= f < |s.use| ensures d.use[f] == if Owned(s.use[f], c) then Free else s.use[f] {
      FrameIs(s, f);
      FrameIs(r, f);
      if s.use[f].Mapped? { VpnBound(s, s.use[f].k); }
      if s.use[f].Table? { TableIs(s, (s.use[f].ctx, s.use[f].i)); }
    }
    forall p | 0 <= p < |s.slots| && s.slots[p].Holds?
      ensures s.slots[p].k.vpn < TABLE_ENTRIES * 1024
    {
      SlotIs(s, p);
      VpnBound(s, s.slots[p].k);
    }
    forall k | k in s.flat ensures k.vpn < TABLE_ENTRIES * 1024 { KeyIs(s, k); VpnBound(s, k); }
  }

  // ---------------------------------------------------------------------------------------------
  // Runs
  // ---------------------------------------------------------------------------------------------

  /** The transitions, as steps: a directory or a table is made; a fault takes a free frame or, if there is none,
      evicts; the entry's mark is cleared; the page arrives; a user stores; a context's destruction drops an entry, a
      table, or the directory. */
  datatype Event = NewDir(ctx: int) | NewTable(t: (int, int))
                 | Claim(k: Key) | Evict(k: Key, v: int, p: int) | Clear(k: Key) | Finish(k: Key, f: int)
                 | Put(k: Key, i: int, x: Sector)
                 | Forget(k: Key) | ForgetTable(t: (int, int)) | ForgetDir(ctx: int)

  ghost predicate FrontOk(s: Machine) {
    s.free != [] && 0 <= s.free[0] < |s.pages| == |s.use|
  }

  /** Faults are handled one at a time; contexts are made and destroyed between them, and users store at any time. */
  ghost predicate Enabled(s: Machine, e: Event) {
    match e
    case NewDir(c) => Quiet(s) && FrontOk(s) && CanTake(s, Dir(c))
    case NewTable(t) => Quiet(s) && FrontOk(s) && CanTake(s, Table(t.0, t.1))
    case Claim(k) => Quiet(s) && FrontOk(s) && CanTake(s, Moving(k))
    case Evict(k, v, p) => Quiet(s) && s.free == [] && CanEvict(s, k, v, p)
    case Clear(k) => !PteOf(s, k).present && exists f {:trigger s.use[f]} :: 0 <= f < |s.use| && s.use[f] == Moving(k)
    case Finish(k, f) => CanArrive(s, k, f)
    case Put(k, i, _) => CanStore(s, k, i)
    case Forget(k) => CanDrop(s, k)
    case ForgetTable(t) => Quiet(s) && t in s.tables && 0 <= s.tables[t] < |s.pages| == |s.use|
                           && forall k {:trigger k in s.ptes} :: k in s.ptes ==> TableOf(k) != t
    case ForgetDir(c) => Quiet(s) && c in s.dirs && 0 <= s.dirs[c] < |s.pages| == |s.use|
                         && forall t {:trigger t in s.tables} :: t in s.tables ==> t.0 != c
  }

  ghost function Apply(s: Machine, e: Event): Machine
    requires Enabled(s, e)
  {
    match e
    case NewDir(c) => AddDir(s, c)
    case NewTable(t) => AddTable(s, t)
    case Claim(k) => Claimed(s, k)
    case Evict(k, v, p) => PagedOut(s, k, v, p)
    case Clear(k) => Fetching(s, k)
    case Finish(k, f) => Arrive(s, k, f)
    case Put(k, i, x) => Store(s, k, i, x)
    case Forget(k) => Drop(s, k)
    case ForgetTable(t) => DropTable(s, t)
    case ForgetDir(c) => DropDir(s, c)
  }

  lemma StepKeeps(s: Machine, e: Event)
    requires Inv(s) && Enabled(s, e)
    ensures Inv(Apply(s, e))
  {
    hide Inv, AddDir, AddTable, Claimed, PagedOut, Fetching, Arrive, Store, Drop, DropTable, DropDir, Quiet;
    match e
    case NewDir(c) => AddDirKeeps(s, c);
    case NewTable(t) => AddTableKeeps(s, t);
    case Claim(k) => ClaimedKeeps(s, k);
    case Evict(k, v, p) => PagedOutKeeps(s, k, v, p);
    case Clear(k) => FetchingKeeps(s, k);
    case Finish(k, f) => ArriveKeeps(s, k, f);
    case Put(k, i, x) => StoreKeeps(s, k, i, x);
    case Forget(k) => DropKeeps(s, k);
    case ForgetTable(t) => DropTableKeeps(s, t);
    case ForgetDir(c) => DropDirKeeps(s, c);
  }

  /** What a step does to a page that users have: only its own stores and its loss change it. */
  lemma StepFlat(s: Machine, e: Event, k: Key)
    requires Inv(s) && Enabled(s, e)
    ensures k in s.flat && e != Forget(k) ==> k in Apply(s, e).flat
    ensures k in s.flat && e != Forget(k) ==>
            Apply(s, e).flat[k] == if e.Put? && e.k == k then s.flat[k][e.i := e.x] else s.flat[k]
  {
    hide Inv, Quiet;
    match e
    case Finish(j, f) =>
      ArriveKeeps(s, j, f);
      hide Arrive;
      if j !in s.flat && k in s.flat {
        assert k in Apply(s, e).flat - {j};
        assert (Apply(s, e).flat - {j})[k] == s.flat[k];
      }
    case Put(j, i, x) => StoreKeeps(s, j, i, x);
    case Forget(j) => DropKeeps(s, j);
    case _ =>
  }

  ghost predicate Legal(s: Machine, es: seq<Event>)
    decreases |es|, 0
  {
    es == [] || (Legal(s, es[..|es| - 1]) && Enabled(Run(s, es[..|es| - 1]), es[|es| - 1]))
  }

  ghost function Run(s: Machine, es: seq<Event>): Machine
    requires Legal(s, es)
    decreases |es|, 1
  {
    if es == [] then s else Apply(Run(s, es[..|es| - 1]), es[|es| - 1])
  }

  datatype Stored = Nothing | Last(x: Sector)

  /** The last value stored in sector i of page k, unless the page has been dropped since. */
  function LastPut(es: seq<Event>, k: Key, i: int): Stored {
    if es == [] then Nothing
    else
      var e := es[|es| - 1];
      if e == Forget(k) then Nothing
      else if e.Put? && e.k == k && e.i == i then Last(e.x)
      else LastPut(es[..|es| - 1], k, i)
  }

  /** The machine holds x in sector i of page k: in the frame that its entry names if it is present, and at the place
      in the paging file that its entry names if it is not. */
  ghost predicate MachineHolds(s: Machine, k: Key, i: int, x: Sector) {
    && k in s.ptes && 0 <= i < SECTORS_PER_PAGE
    && var e := s.ptes[k];
       if e.present then 0 <= FrameAt(e.base) + i < |s.mem| && s.mem[FrameAt(e.base) + i] == x
       else 0 <= e.base < |s.swap| && s.swap[e.base] && 0 <= SlotAt(s, e.base) + i < |s.disk|
            && s.disk[SlotAt(s, e.base) + i] == x
  }

  /** The flat memory is where the entries say. */
  lemma FlatIsHeld(s: Machine, k: Key, i: int)
    requires Inv(s) && k in s.flat && 0 <= i < |s.flat[k]|
    ensures MachineHolds(s, k, i, s.flat[k][i])
  {
    hide Inv;
    InvSizes(s);
    KeyIs(s, k);
    var e := s.ptes[k];
    RegionInside(s, e.base, e.base);
    if !e.present { SlotIs(s, e.base); }
  }

  /** After any run from a fresh machine, with any faults, evictions, page-ins, stores and destructions, in any order
      that handles faults one at a time: the invariant holds, and the flat memory has what was stored last. */
  lemma {:induction false} RunKeeps(s: Machine, es: seq<Event>, k: Key, i: int)
    requires Fresh(s) && Legal(s, es)
    ensures Inv(Run(s, es))
    ensures var r := Run(s, es);
            LastPut(es, k, i).Last? ==> k in r.flat && 0 <= i < |r.flat[k]| && r.flat[k][i] == LastPut(es, k, i).x
    decreases |es|
  {
    hide Inv, Fresh, Enabled, Apply;
    if es == [] {
      FreshInv(s);
    } else {
      var before, e := es[..|es| - 1], es[|es| - 1];
      RunKeeps(s, before, k, i);
      var t := Run(s, before);
      StepKeeps(t, e);
      StepFlat(t, e, k);
      if e.Put? && e.k == k { PutIn(t, e); }
    }
  }

  lemma PutIn(s: Machine, e: Event)
    requires Enabled(s, e) && e.Put?
    ensures e.k in s.flat && 0 <= e.i < |s.flat[e.k]|
  {
  }

  /** Demand paging refines flat memory: after any run from a fresh machine a sector that was stored, and whose page
      was not dropped since, is found where the page's entry says, in memory or on the disk, with the value stored
      last. */
  lemma LastStoreFound(s: Machine, es: seq<Event>, k: Key, i: int)
    requires Fresh(s) && Legal(s, es) && LastPut(es, k, i).Last?
    ensures Inv(Run(s, es)) && MachineHolds(Run(s, es), k, i, LastPut(es, k, i).x)
  {
    hide Inv, Fresh, Legal, Run, LastPut, MachineHolds;
    RunKeeps(s, es, k, i);
    FlatIsHeld(Run(s, es), k, i);
  }

  /** No frame and no place in the paging file is named by two entries, or left out of account: every pageable frame
      belongs to one page, and every used place to one. */
  lemma NamedOnce(s: Machine, j: Key, k: Key)
    requires Inv(s) && j in s.ptes && k in s.ptes && j != k
    ensures s.ptes[j].present && s.ptes[k].present ==> s.ptes[j].base != s.ptes[k].base
    ensures !s.ptes[j].present && s.ptes[j].onDisk && !s.ptes[k].present && s.ptes[k].onDisk ==>
        s.ptes[j].base != s.ptes[k].base
  {
    hide Inv;
    KeyIs(s, j);
    KeyIs(s, k);
  }

  lemma UsedByOne(s: Machine, f: int, p: int)
    requires Inv(s) && Quiet(s)
    ensures 0 <= f < |s.pages| && s.pages[f].pageable ==>
        s.pages[f].entry in s.ptes && s.ptes[s.pages[f].entry] == Pte(true, false, f)
    ensures 0 <= p < |s.swap| && s.swap[p] ==> exists k :: k in s.ptes && s.ptes[k] == Pte(false, true, p)
  {
    hide Inv;
    FrameIs(s, f);
    SlotIs(s, p);
  }

  /** m has come about from a fresh machine by the steps es. */
  ghost predicate Reached(origin: Machine, es: seq<Event>, m: Machine) {
    Fresh(origin) && Legal(origin, es) && Run(origin, es) == m
  }

  lemma ReachedMore(origin: Machine, es: seq<Event>, m: Machine, e: Event)
    requires Reached(origin, es, m) && Enabled(m, e)
    ensures Reached(origin, es + [e], Apply(m, e))
  {
    hide Fresh, Enabled, Apply;
    assert (es + [e])[..|es + [e]| - 1] == es;
  }

  lemma ReachedFirst(origin: Machine)
    requires Fresh(origin)
    ensures Reached(origin, [], origin)
  {
  }

  /** A machine on which nothing has happened yet: every frame free, the paging file empty. */
  ghost predicate Fresh(s: Machine) {
    && Sizes(s) && s.ptes == map[] && s.tables == map[] && s.dirs == map[] && s.flat == map[]
    && (forall f {:trigger s.pages[f]} {:trigger s.use[f]} :: 0 <= f < |s.pages| ==>
        !s.pages[f].taken && !s.pages[f].pageable && !s.pages[f].locked && s.use[f].Free?)
    && (forall p {:trigger s.swap[p]} {:trigger s.slots[p]} :: 0 <= p < |s.swap| ==> !s.swap[p] && s.slots[p].Unused?)
    && s.free == seq(|s.pages|, i => i)
  }

  lemma FreshInv(s: Machine)
    requires Fresh(s)
    ensures Inv(s) && Quiet(s)
  {
    assert Distinct(s.free);
    assert forall f :: 0 <= f < |s.pages| ==> s.free[f] == f;
    forall f | 0 <= f < |s.use| ensures FrameOk(s, f) { assert s.free[f] == f; }
    Assemble(s);
  }
}
