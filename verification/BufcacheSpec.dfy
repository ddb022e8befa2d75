/** What the buffer cache (src/geekos/bufcache.c) does to buffers and disk, as a state machine over values. */
module BufcacheSpec {
  import opened Seqs

  const SECTOR_SIZE := 512
  const MAX_BLOCKS := 128

  type Byte = b: int | 0 <= b < 256

  /** pending: its holder has stored into it since it last marked it, or got it. */
  datatype Buf = Buf(block: nat, data: seq<Byte>, dirty: bool, inUse: bool, pending: bool)

  /** spb sectors make one filesystem block; bufs is the buffer list, front first. busy is the buffer that is being
      flushed, or -1, and wrote how many of its sectors have been written. */
  datatype State = State(spb: nat, disk: seq<seq<Byte>>, bufs: seq<Buf>, busy: int, wrote: nat)

  // ---------------------------------------------------------------------------------------------
  // Blocks on the disk
  // ---------------------------------------------------------------------------------------------

  function First(n: nat, spb: nat): nat {
    n * spb
  }

  lemma FirstIs(n: nat, spb: nat)
    ensures First(n, spb) == n * spb
  {
  }

  predicate OnDisk(s: State, n: nat) {
    First(n, s.spb) + s.spb <= |s.disk|
  }

  predicate Formatted(disk: seq<seq<Byte>>) {
    forall i :: 0 <= i < |disk| ==> |disk[i]| == SECTOR_SIZE
  }

  /** The contents of count sectors. */
  function Region(disk: seq<seq<Byte>>, first: nat, count: nat): seq<Byte>
    requires first + count <= |disk|
  {
    if count == 0 then [] else Region(disk, first, count - 1) + disk[first + count - 1]
  }

  function Block(s: State, n: nat): seq<Byte>
    requires OnDisk(s, n)
  {
    Region(s.disk, First(n, s.spb), s.spb)
  }

  lemma {:induction false} RegionLength(disk: seq<seq<Byte>>, first: nat, count: nat)
    requires first + count <= |disk| && Formatted(disk)
    ensures |Region(disk, first, count)| == count * SECTOR_SIZE
    decreases count
  {
    if count > 0 { RegionLength(disk, first, count - 1); }
  }

  lemma {:induction false} RegionSame(d: seq<seq<Byte>>, e: seq<seq<Byte>>, first: nat, count: nat)
    requires first + count <= |d| == |e| && forall i :: first <= i < first + count ==> d[i] == e[i]
    ensures Region(d, first, count) == Region(e, first, count)
    decreases count
  {
    if count > 0 { RegionSame(d, e, first, count - 1); }
  }

  lemma {:induction false} RegionByte(disk: seq<seq<Byte>>, first: nat, count: nat, k: nat)
    requires first + count <= |disk| && Formatted(disk) && k < count * SECTOR_SIZE
    ensures |Region(disk, first, count)| == count * SECTOR_SIZE
    ensures k / 512 < count && Region(disk, first, count)[k] == disk[first + k / 512][k % 512]
    decreases count
  {
    RegionLength(disk, first, count);
    RegionLength(disk, first, count - 1);
    if k < (count - 1) * SECTOR_SIZE {
      RegionByte(disk, first, count - 1, k);
    } else {
      assert k / 512 == count - 1 && k % 512 == k - (count - 1) * 512;
    }
  }

  /** Where a block is: its bytes are those of spb sectors of 512 bytes from n * spb on, in order. */
  lemma BlockBytes(s: State, n: nat, k: nat)
    requires Sized(s) && n * s.spb + s.spb <= |s.disk| && k < s.spb * 512
    ensures OnDisk(s, n) && |Block(s, n)| == s.spb * 512
    ensures n * s.spb + k / 512 < |s.disk| && Block(s, n)[k] == s.disk[n * s.spb + k / 512][k % 512]
  {
    RegionByte(s.disk, n * s.spb, s.spb, k);
  }

  /** Different blocks lie on different sectors. */
  lemma Apart(n: nat, m: nat, spb: nat)
    requires n != m
    ensures First(n, spb) + spb <= First(m, spb) || First(m, spb) + spb <= First(n, spb)
  {
    if n < m {
      assert m * spb == n * spb + spb + (m - n - 1) * spb;
      Product(m - n - 1, spb);
    } else {
      assert n * spb == m * spb + spb + (n - m - 1) * spb;
      Product(n - m - 1, spb);
    }
  }

  lemma Product(x: nat, y: nat)
    ensures x * y >= 0
  {
  }

  // ---------------------------------------------------------------------------------------------
  // The cache
  // ---------------------------------------------------------------------------------------------

  /** The first buffer of block n, or -1. */
  function Find(bufs: seq<Buf>, n: nat): (i: int)
    ensures -1 <= i < |bufs|
    ensures i >= 0 ==> bufs[i].block == n
    ensures forall j :: 0 <= j < (if i < 0 then |bufs| else i) ==> bufs[j].block != n
  {
    if bufs == [] then -1
    else
      var i := Find(bufs[..|bufs| - 1], n);
      if i < 0 && bufs[|bufs| - 1].block == n then |bufs| - 1 else i
  }

  /** The last buffer that is not in use, or -1. */
  function Oldest(bufs: seq<Buf>): (i: int)
    ensures -1 <= i < |bufs|
    ensures i >= 0 ==> !bufs[i].inUse
    ensures forall j :: i < j < |bufs| ==> bufs[j].inUse
  {
    if bufs == [] then -1
    else if !bufs[|bufs| - 1].inUse then |bufs| - 1
    else Oldest(bufs[..|bufs| - 1])
  }

  /** What the filesystem sees in block n. */
  function View(s: State, n: nat): seq<Byte>
    requires OnDisk(s, n)
  {
    var i := Find(s.bufs, n);
    if i >= 0 then s.bufs[i].data else Block(s, n)
  }

  predicate Sized(s: State) {
    s.spb > 0 && Formatted(s.disk)
    && forall i :: 0 <= i < |s.bufs| ==> |s.bufs[i].data| == s.spb * SECTOR_SIZE && OnDisk(s, s.bufs[i].block)
  }

  predicate CachedOnce(bufs: seq<Buf>) {
    forall i, j :: 0 <= i < j < |bufs| ==> bufs[i].block != bufs[j].block
  }

  /** The buffer will be written back, or its holder has yet to mark it, or it need not be written. */
  predicate Safe(s: State, b: Buf)
    requires OnDisk(s, b.block)
  {
    b.dirty || b.pending || b.data == Block(s, b.block)
  }

  function Slice(data: seq<Byte>, j: nat): seq<Byte> {
    if (j + 1) * SECTOR_SIZE <= |data| then data[j * SECTOR_SIZE..j * SECTOR_SIZE + SECTOR_SIZE] else []
  }

  /** The buffer that is being flushed still has in every sector already written what was written there. */
  predicate InStep(s: State) {
    s.busy >= 0 ==>
      && s.busy < |s.bufs| && s.bufs[s.busy].dirty && s.wrote <= s.spb
      && var b := s.bufs[s.busy];
         forall j :: 0 <= j < s.wrote ==>
             First(b.block, s.spb) + j < |s.disk| && s.disk[First(b.block, s.spb) + j] == Slice(b.data, j)
  }

  predicate Inv(s: State) {
    && Sized(s) && CachedOnce(s.bufs) && InStep(s)
    && forall i :: 0 <= i < |s.bufs| ==> Safe(s, s.bufs[i]) && (!s.bufs[i].inUse ==> !s.bufs[i].pending)
  }

  // ---------------------------------------------------------------------------------------------
  // Steps
  // ---------------------------------------------------------------------------------------------

  /** Hit, Miss and Take are how Get_Buffer succeeds: with a cached buffer, a new one, or the oldest one, whose
      block number it forgets to change; Pass is what is left of a Take whose read fails. A flush (Sync_Buffer) is
      begun, writes sector after sector, and ends or fails.
      Store is a holder's write into the data, and Mark is Modify_FS_Buffer: they take no lock, and so come at any time.
      The others are made with the lock held, and so not during a flush. */
  datatype Op = Hit(i: nat) | Miss(n: nat) | Take(i: nat) | Pass(i: nat) | Begin(i: nat) | Sector | End | Fail
              | Store(i: nat, data: seq<Byte>) | Mark(i: nat) | Release(i: nat)

  predicate Enabled(s: State, op: Op) {
    match op
    case Miss(n) => s.busy < 0 && OnDisk(s, n) && Find(s.bufs, n) < 0 && |s.bufs| < MAX_BLOCKS
    case Hit(i) => s.busy < 0 && i < |s.bufs| && !s.bufs[i].inUse
    case Take(i) => s.busy < 0 && i < |s.bufs| && !s.bufs[i].inUse && !s.bufs[i].dirty && OnDisk(s, s.bufs[i].block)
    case Pass(i) => s.busy < 0 && i < |s.bufs| && !s.bufs[i].inUse && !s.bufs[i].dirty
    case Begin(i) => s.busy < 0 && i < |s.bufs| && s.bufs[i].dirty
    case Sector => 0 <= s.busy < |s.bufs| && s.wrote < s.spb && OnDisk(s, s.bufs[s.busy].block)
                   && s.spb * SECTOR_SIZE <= |s.bufs[s.busy].data|
    case End => 0 <= s.busy < |s.bufs| && s.wrote == s.spb
    case Fail => 0 <= s.busy < |s.bufs| && s.wrote < s.spb
    case Store(i, data) => i < |s.bufs| && s.bufs[i].inUse && |data| == |s.bufs[i].data|
    case Mark(i) => i < |s.bufs| && s.bufs[i].inUse
    case Release(i) => s.busy < 0 && i < |s.bufs| && s.bufs[i].inUse
  }

  /** What holders owe: to mark a buffer after storing into it, before they release it; and to store nothing new into a
      sector that a flush in progress has already written. */
  predicate Disciplined(s: State, op: Op)
    requires Enabled(s, op)
  {
    match op
    case Store(i, data) => s.busy == i ==> forall j :: 0 <= j < s.wrote ==> Slice(data, j) == Slice(s.bufs[i].data, j)
    case Release(i) => s.bufs[i].dirty || !s.bufs[i].pending
    case _ => true
  }

  function Apply(s: State, op: Op): State
    requires Enabled(s, op)
  {
    match op
    case Miss(n) => s.(bufs := [Buf(n, Block(s, n), false, true, false)] + s.bufs)
    case Hit(i) => s.(bufs := s.bufs[i := s.bufs[i].(inUse := true)])
    case Take(i) =>
      s.(bufs := [Buf(s.bufs[i].block, Block(s, s.bufs[i].block), false, true, false)] + Without(s.bufs, i))
    case Pass(i) => s.(bufs := [s.bufs[i]] + Without(s.bufs, i))
    case Begin(i) => s.(busy := i, wrote := 0)
    case Sector =>
      var b := s.bufs[s.busy];
      s.(disk := s.disk[First(b.block, s.spb) + s.wrote := Slice(b.data, s.wrote)], wrote := s.wrote + 1)
    case End => s.(bufs := s.bufs[s.busy := s.bufs[s.busy].(dirty := false)], busy := -1, wrote := 0)
    case Fail => s.(busy := -1, wrote := 0)
    case Store(i, data) => s.(bufs := s.bufs[i := s.bufs[i].(data := data, pending := true)])
    case Mark(i) => s.(bufs := s.bufs[i := s.bufs[i].(dirty := true, pending := false)])
    case Release(i) => s.(bufs := s.bufs[i := s.bufs[i].(inUse := false, pending := false)])
  }

  lemma MovedAt<T>(a: seq<T>, i: nat, b: seq<T>)
    requires i < |a| && |b| == |a| && b[1..] == Without(a, i)
    ensures forall j :: 0 < j < |b| ==> b[j] == a[if j <= i then j - 1 else j]
  {
    assert forall j :: 0 < j < |b| ==> b[j] == b[1..][j - 1];
  }

  lemma FindIs(bufs: seq<Buf>, i: nat)
    requires CachedOnce(bufs) && i < |bufs|
    ensures Find(bufs, bufs[i].block) == i
  {
    var k := Find(bufs, bufs[i].block);
    assert k >= 0 ==> bufs[k].block == bufs[i].block;
  }

  lemma SameBlocks(a: seq<Buf>, b: seq<Buf>, n: nat)
    requires CachedOnce(a) && |a| == |b| && forall i :: 0 <= i < |a| ==> a[i].block == b[i].block
    ensures Find(a, n) == Find(b, n) && CachedOnce(b)
  {
    if Find(a, n) >= 0 { FindIs(b, Find(a, n)); }
  }

  lemma InvParts(s: State)
    requires Inv(s)
    ensures Sized(s) && CachedOnce(s.bufs) && InStep(s)
  {
  }

  lemma SafeAt(s: State, i: nat)
    requires Inv(s) && i < |s.bufs|
    ensures OnDisk(s, s.bufs[i].block) && Safe(s, s.bufs[i]) && (!s.bufs[i].inUse ==> !s.bufs[i].pending)
  {
  }

  lemma BlockOf(s: State, t: State, n: nat)
    requires s.spb == t.spb && s.disk == t.disk
    ensures OnDisk(s, n) <==> OnDisk(t, n)
    ensures OnDisk(s, n) ==> Block(s, n) == Block(t, n)
  {
  }

  // --- one sector

  /** Writing a sector of the busy buffer changes no other block. */
  lemma SectorElsewhere(s: State, n: nat)
    requires Enabled(s, Sector) && OnDisk(s, n) && n != s.bufs[s.busy].block
    ensures OnDisk(Apply(s, Sector), n) && Block(Apply(s, Sector), n) == Block(s, n)
  {
    hide First;
    Apart(n, s.bufs[s.busy].block, s.spb);
    RegionSame(s.disk, Apply(s, Sector).disk, First(n, s.spb), s.spb);
  }

  /** With every sector in step, the block is the data. */
  lemma {:induction false} AllInStep(disk: seq<seq<Byte>>, first: nat, count: nat, data: seq<Byte>)
    requires first + count <= |disk| && count * SECTOR_SIZE <= |data|
    requires forall j :: 0 <= j < count ==> disk[first + j] == Slice(data, j)
    ensures Region(disk, first, count) == data[..count * SECTOR_SIZE]
    decreases count
  {
    if count > 0 {
      AllInStep(disk, first, count - 1, data);
      assert disk[first + (count - 1)] == Slice(data, count - 1);
    }
  }

  /** And conversely. */
  lemma {:induction false} BlockInStep(disk: seq<seq<Byte>>, first: nat, count: nat, data: seq<Byte>, j: nat)
    requires first + count <= |disk| && Formatted(disk) && count * SECTOR_SIZE <= |data| && j < count
    requires Region(disk, first, count) == data[..count * SECTOR_SIZE]
    ensures disk[first + j] == Slice(data, j)
    decreases count
  {
    RegionLength(disk, first, count - 1);
    var r, m := Region(disk, first, count - 1), (count - 1) * SECTOR_SIZE;
    assert Region(disk, first, count)[..m] == r;
    assert Region(disk, first, count)[m..] == disk[first + (count - 1)];
    if j == count - 1 {
      assert data[..count * SECTOR_SIZE][m..] == Slice(data, j);
    } else {
      assert data[..count * SECTOR_SIZE][..m] == data[..m];
      BlockInStep(disk, first, count - 1, data, j);
    }
  }

  lemma SectorFormatted(s: State)
    requires Enabled(s, Sector) && Formatted(s.disk)
    ensures Formatted(Apply(s, Sector).disk)
  {
  }

  // ---------------------------------------------------------------------------------------------
  // Every step of disciplined holders keeps the invariant
  // ---------------------------------------------------------------------------------------------

  lemma MissKeeps(s: State, n: nat)
    requires Inv(s) && Enabled(s, Miss(n))
    ensures Inv(Apply(s, Miss(n)))
  {
    hide First, Region, Slice;
    RegionLength(s.disk, First(n, s.spb), s.spb);
  }

  lemma TakeKeeps(s: State, i: nat)
    requires Inv(s) && Enabled(s, Take(i))
    ensures Inv(Apply(s, Take(i)))
  {
    hide First, Region, Slice;
    RegionLength(s.disk, First(s.bufs[i].block, s.spb), s.spb);
  }

  lemma PassKeeps(s: State, i: nat)
    requires Inv(s) && Enabled(s, Pass(i))
    ensures Inv(Apply(s, Pass(i)))
  {
    hide First, Region, Slice, Safe, Block;
    var t := Apply(s, Pass(i));
    assert t.bufs[1..] == Without(s.bufs, i);
    MovedAt(s.bufs, i, t.bufs);
    hide Without;
    forall j | 0 <= j < |t.bufs| ensures Safe(t, t.bufs[j]) && (!t.bufs[j].inUse ==> !t.bufs[j].pending) {
      var k := if j == 0 then i else if j <= i then j - 1 else j;
      SafeAt(s, k);
      SameSafe(s, t, s.bufs[k]);
    }
  }

  lemma SameSafe(s: State, t: State, b: Buf)
    requires s.spb == t.spb && s.disk == t.disk && OnDisk(s, b.block)
    ensures OnDisk(t, b.block) && (Safe(s, b) <==> Safe(t, b))
  {
    BlockOf(s, t, b.block);
  }

  lemma FlagKeeps(s: State, op: Op)
    requires Inv(s) && Enabled(s, op) && Disciplined(s, op)
    requires op.Hit? || op.Begin? || op.Fail? || op.Store? || op.Mark? || op.Release?
    ensures Inv(Apply(s, op))
  {
    hide First, Region, Slice;
  }

  lemma SectorKeeps(s: State)
    requires Inv(s) && Enabled(s, Sector)
    ensures Inv(Apply(s, Sector))
  {
    hide First, Block, Region;
    var t := Apply(s, Sector);
    SectorFormatted(s);
    forall i | 0 <= i < |t.bufs| ensures Safe(t, t.bufs[i]) && (!t.bufs[i].inUse ==> !t.bufs[i].pending) {
      SafeAt(s, i);
      if i != s.busy { SectorElsewhere(s, t.bufs[i].block); }
    }
  }

  lemma EndKeeps(s: State)
    requires Inv(s) && Enabled(s, End)
    ensures Inv(Apply(s, End))
  {
    hide First, Slice;
    var t, b := Apply(s, End), s.bufs[s.busy];
    AllInStep(s.disk, First(b.block, s.spb), s.spb, b.data);
    assert b.data[..s.spb * SECTOR_SIZE] == b.data;
    assert Block(s, b.block) == b.data;
    hide Block, Region;
    forall i | 0 <= i < |t.bufs| ensures Safe(t, t.bufs[i]) && (!t.bufs[i].inUse ==> !t.bufs[i].pending) {
      SafeAt(s, i);
      BlockOf(s, t, t.bufs[i].block);
    }
  }

  lemma StepKeeps(s: State, op: Op)
    requires Inv(s) && Enabled(s, op) && Disciplined(s, op)
    ensures Inv(Apply(s, op))
  {
    hide Inv, First, Region, Apply;
    match op
    case Miss(n) => MissKeeps(s, n);
    case Take(i) => TakeKeeps(s, i);
    case Pass(i) => PassKeeps(s, i);
    case Sector => SectorKeeps(s);
    case End => EndKeeps(s);
    case _ => FlagKeeps(s, op);
  }

  // ---------------------------------------------------------------------------------------------
  // Only a holder's stores change what the filesystem sees
  // ---------------------------------------------------------------------------------------------

  /** What block n should hold after a step. */
  function Seen(s: State, op: Op, n: nat): seq<Byte>
    requires Enabled(s, op) && OnDisk(s, n)
  {
    if op.Store? && s.bufs[op.i].block == n then op.data else View(s, n)
  }

  lemma MissView(s: State, m: nat, n: nat)
    requires Inv(s) && Enabled(s, Miss(m)) && OnDisk(s, n)
    ensures OnDisk(Apply(s, Miss(m)), n) && View(Apply(s, Miss(m)), n) == View(s, n)
  {
    hide Inv, First, Region;
    MissKeeps(s, m);
    InvParts(s);
    var t := Apply(s, Miss(m));
    InvParts(t);
    if n == m {
      FindIs(t.bufs, 0);
    } else {
      var i := Find(s.bufs, n);
      if i >= 0 {
        assert t.bufs[i + 1] == s.bufs[i];
        FindIs(t.bufs, i + 1);
      } else {
        assert forall j :: 0 < j < |t.bufs| ==> t.bufs[j] == s.bufs[j - 1];
      }
    }
  }

  /** Moving a buffer to the front moves the ones before it back by one. */
  lemma MovedToFront(a: seq<Buf>, i: nat, b: seq<Buf>, n: nat)
    requires CachedOnce(a) && CachedOnce(b) && i < |a|
    requires |b| == |a| && b[1..] == Without(a, i) && b[0].block == a[i].block
    ensures var k := Find(a, n); Find(b, n) == if k < 0 then -1 else if k == i then 0 else if k < i then k + 1 else k
    ensures forall j :: 0 < j < |b| ==> b[j] == a[if j <= i then j - 1 else j]
  {
    hide CachedOnce;
    MovedAt(a, i, b);
    var k := Find(a, n);
    if k >= 0 {
      FindIs(b, if k == i then 0 else if k < i then k + 1 else k);
    }
  }

  lemma TakeView(s: State, i: nat, n: nat)
    requires Inv(s) && Enabled(s, Take(i)) && OnDisk(s, n)
    ensures OnDisk(Apply(s, Take(i)), n) && View(Apply(s, Take(i)), n) == View(s, n)
  {
    hide Inv, First, Region;
    TakeKeeps(s, i);
    InvParts(s);
    SafeAt(s, i);
    var t := Apply(s, Take(i));
    InvParts(t);
    assert t.bufs[1..] == Without(s.bufs, i);
    MovedToFront(s.bufs, i, t.bufs, n);
  }

  lemma PassView(s: State, i: nat, n: nat)
    requires Inv(s) && Enabled(s, Pass(i)) && OnDisk(s, n)
    ensures OnDisk(Apply(s, Pass(i)), n) && View(Apply(s, Pass(i)), n) == View(s, n)
  {
    hide Inv, First, Region;
    PassKeeps(s, i);
    InvParts(s);
    var t := Apply(s, Pass(i));
    InvParts(t);
    assert t.bufs[1..] == Without(s.bufs, i);
    MovedToFront(s.bufs, i, t.bufs, n);
  }

  lemma FlagView(s: State, op: Op, n: nat)
    requires CachedOnce(s.bufs) && Enabled(s, op) && OnDisk(s, n) && !op.Miss? && !op.Take? && !op.Pass? && !op.Sector?
    ensures OnDisk(Apply(s, op), n) && View(Apply(s, op), n) == Seen(s, op, n)
  {
    hide First, Region;
    SameBlocks(s.bufs, Apply(s, op).bufs, n);
    if op.Store? && Find(s.bufs, n) >= 0 { FindIs(s.bufs, op.i); }
  }

  lemma StepView(s: State, op: Op, n: nat)
    requires Inv(s) && Enabled(s, op) && OnDisk(s, n)
    ensures OnDisk(Apply(s, op), n) && View(Apply(s, op), n) == Seen(s, op, n)
  {
    hide Inv, First, Region;
    InvParts(s);
    match op
    case Miss(m) => MissView(s, m, n);
    case Take(i) => TakeView(s, i, n);
    case Pass(i) => PassView(s, i, n);
    case Sector => if n != s.bufs[s.busy].block { SectorElsewhere(s, n); } else { FindIs(s.bufs, s.busy); }
    case _ => FlagView(s, op, n);
  }

  // ---------------------------------------------------------------------------------------------
  // Runs
  // ---------------------------------------------------------------------------------------------

  predicate Legal(s: State, ops: seq<Op>)
    decreases |ops|, 0
  {
    ops == [] || (Legal(s, ops[..|ops| - 1]) && Enabled(Run(s, ops[..|ops| - 1]), ops[|ops| - 1]))
  }

  function Run(s: State, ops: seq<Op>): State
    requires Legal(s, ops)
    decreases |ops|, 1
  {
    if ops == [] then s else Apply(Run(s, ops[..|ops| - 1]), ops[|ops| - 1])
  }

  /** Holders do what they owe, throughout. */
  predicate Kept(s: State, ops: seq<Op>)
    requires Legal(s, ops)
  {
    ops == [] || (Kept(s, ops[..|ops| - 1]) && Disciplined(Run(s, ops[..|ops| - 1]), ops[|ops| - 1]))
  }

  /** The last data a holder stored in block n during the run, or what it held before. */
  function LastStored(s: State, ops: seq<Op>, n: nat): seq<Byte>
    requires Legal(s, ops) && OnDisk(s, n)
  {
    if ops == [] then View(s, n)
    else
      var op, before := ops[|ops| - 1], ops[..|ops| - 1];
      if op.Store? && Run(s, before).bufs[op.i].block == n then op.data else LastStored(s, before, n)
  }

  lemma LegalMore(s: State, ops: seq<Op>, op: Op)
    requires Legal(s, ops) && Enabled(Run(s, ops), op)
    ensures Legal(s, ops + [op]) && Run(s, ops + [op]) == Apply(Run(s, ops), op)
    ensures Kept(s, ops) && Disciplined(Run(s, ops), op) ==> Kept(s, ops + [op])
  {
    hide Enabled, Apply, Disciplined;
    assert (ops + [op])[..|ops + [op]| - 1] == ops;
  }

  /** One run after another is a run. */
  lemma {:induction false} RunJoin(s: State, a: seq<Op>, b: seq<Op>)
    requires Legal(s, a) && Legal(Run(s, a), b)
    ensures Legal(s, a + b) && Run(s, a + b) == Run(Run(s, a), b)
    ensures Kept(s, a) && Kept(Run(s, a), b) ==> Kept(s, a + b)
    decreases |b|
  {
    hide Enabled, Apply, Disciplined;
    if b == [] {
      assert a + b == a;
    } else {
      RunJoin(s, a, b[..|b| - 1]);
      assert (a + b)[..|a + b| - 1] == a + b[..|b| - 1];
    }
  }

  /** From a right cache, disciplined holders get a right cache, and every block reads as it was last stored. */
  lemma {:induction false} RunKeeps(s: State, ops: seq<Op>, n: nat)
    requires Inv(s) && Legal(s, ops) && Kept(s, ops) && OnDisk(s, n)
    ensures Inv(Run(s, ops)) && OnDisk(Run(s, ops), n) && View(Run(s, ops), n) == LastStored(s, ops, n)
    decreases |ops|
  {
    hide Inv, First, Region, Enabled, Apply, Disciplined, View;
    if ops != [] {
      var before, op := ops[..|ops| - 1], ops[|ops| - 1];
      RunKeeps(s, before, n);
      StepKeeps(Run(s, before), op);
      StepView(Run(s, before), op, n);
      SeenIs(Run(s, before), op, n);
    }
  }

  lemma SeenIs(s: State, op: Op, n: nat)
    requires Enabled(s, op) && OnDisk(s, n)
    ensures op.Store? ==> op.i < |s.bufs|
    ensures Seen(s, op, n) == if op.Store? && s.bufs[op.i].block == n then op.data else View(s, n)
  {
  }

  predicate Empty(s: State) {
    s.spb > 0 && Formatted(s.disk) && s.bufs == [] && s.busy == -1 && s.wrote == 0
  }

  lemma EmptyInv(s: State)
    requires Empty(s)
    ensures Inv(s)
    ensures forall n :: OnDisk(s, n) ==> View(s, n) == Block(s, n)
  {
  }

  /** The cache refines the disk: after any run from an empty cache, with holders storing and marking between the
      sectors of any flush, and whatever flushes failed, every block reads as it was last stored. */
  lemma EveryRun(s: State, ops: seq<Op>, n: nat)
    requires Empty(s) && Legal(s, ops) && Kept(s, ops) && OnDisk(s, n)
    ensures Inv(Run(s, ops)) && OnDisk(Run(s, ops), n) && View(Run(s, ops), n) == LastStored(s, ops, n)
    ensures Inv(s) && View(s, n) == Block(s, n)
  {
    hide Inv, View, Block, Legal, Kept, Run;
    EmptyInv(s);
    RunKeeps(s, ops, n);
  }

  /** Nothing is left to write: no buffer is dirty, and none holds stores not yet marked. */
  predicate AllClean(s: State) {
    forall i :: 0 <= i < |s.bufs| ==> !s.bufs[i].dirty && !s.bufs[i].pending
  }

  lemma CleanIsWritten(s: State, n: nat)
    requires Inv(s) && AllClean(s) && OnDisk(s, n)
    ensures Block(s, n) == View(s, n)
  {
    hide First, Region;
    if Find(s.bufs, n) >= 0 { SafeAt(s, Find(s.bufs, n)); }
  }

  /** Then the disk itself holds what was last stored. */
  lemma WrittenBack(s: State, ops: seq<Op>, n: nat)
    requires Empty(s) && Legal(s, ops) && Kept(s, ops) && OnDisk(s, n) && AllClean(Run(s, ops))
    ensures OnDisk(Run(s, ops), n) && Block(Run(s, ops), n) == LastStored(s, ops, n)
  {
    hide Inv, First, Region, Legal, Kept, Run, AllClean, View, Block;
    EveryRun(s, ops, n);
    CleanIsWritten(Run(s, ops), n);
  }

  // ---------------------------------------------------------------------------------------------
  // Where holders store behind a flush
  // ---------------------------------------------------------------------------------------------

  predicate DuringFlush(ops: seq<Op>) {
    forall k :: 0 <= k < |ops| ==> ops[k].Sector? || ops[k].Store? || ops[k].Mark?
  }

  /** What sector j held when the flush wrote it. */
  function When(s: State, ops: seq<Op>, j: nat): seq<Byte>
    requires Legal(s, ops)
  {
    if ops == [] then []
    else
      var t := Run(s, ops[..|ops| - 1]);
      if ops[|ops| - 1].Sector? && t.wrote == j then Slice(t.bufs[t.busy].data, j) else When(s, ops[..|ops| - 1], j)
  }

  /** What stays the same while buffer i is flushed, whatever its holder stores. */
  predicate Flushing(s: State, t: State, i: nat) {
    && i < |s.bufs| == |t.bufs| && t.busy == i && t.wrote <= t.spb == s.spb && |t.disk| == |s.disk| && Formatted(t.disk)
    && t.bufs[i].block == s.bufs[i].block && |t.bufs[i].data| == s.spb * SECTOR_SIZE && OnDisk(t, t.bufs[i].block)
  }

  lemma FlushStep(s: State, t: State, i: nat, op: Op)
    requires Flushing(s, t, i) && Enabled(t, op) && (op.Sector? || op.Store? || op.Mark?)
    ensures var u := Apply(t, op);
            Flushing(s, u, i) && u.wrote == (if op.Sector? then t.wrote + 1 else t.wrote)
            && forall j :: 0 <= j < |t.disk| ==>
                 u.disk[j] ==
                 if op.Sector? && j == First(t.bufs[i].block, t.spb) + t.wrote then Slice(t.bufs[i].data, t.wrote)
                 else t.disk[j]
  {
    hide First;
  }

  /** The disk holds what each sector was when it was written. */
  lemma {:induction false} FlushTracks(s: State, ops: seq<Op>, i: nat)
    requires Inv(s) && s.busy == i && s.wrote == 0 && Legal(s, ops) && DuringFlush(ops)
    ensures var t := Run(s, ops);
            Flushing(s, t, i)
            && forall j :: 0 <= j < t.wrote ==> t.disk[First(s.bufs[i].block, s.spb) + j] == When(s, ops, j)
    decreases |ops|
  {
    hide First, Enabled, Apply, Slice;
    if ops != [] {
      var before, op := ops[..|ops| - 1], ops[|ops| - 1];
      FlushTracks(s, before, i);
      assert op == ops[|ops| - 1];
      FlushStep(s, Run(s, before), i, op);
    }
  }

  /** A flush leaves the block on the disk as it is in the buffer exactly if at its end every sector is what it was when
      it was written: if no changed byte was stored behind it. The buffer is clean either way. */
  lemma FlushIff(s: State, ops: seq<Op>, i: nat)
    requires Inv(s) && s.busy == i && s.wrote == 0 && Legal(s, ops) && DuringFlush(ops) && Enabled(Run(s, ops), End)
    ensures var t := Apply(Run(s, ops), End);
            && i < |t.bufs| && !t.bufs[i].dirty && OnDisk(t, t.bufs[i].block)
            && (Block(t, t.bufs[i].block) == t.bufs[i].data
                <==> forall j :: 0 <= j < t.spb ==> When(s, ops, j) == Slice(t.bufs[i].data, j))
  {
    hide First, Legal, Run, When, Slice, Inv;
    FlushTracks(s, ops, i);
    var r := Run(s, ops);
    var t, b := Apply(r, End), r.bufs[i];
    var first := First(b.block, r.spb);
    assert b.data[..r.spb * SECTOR_SIZE] == b.data;
    if Block(r, b.block) == b.data {
      forall j | 0 <= j < r.spb
        ensures When(s, ops, j) == Slice(b.data, j)
      {
        BlockInStep(r.disk, first, r.spb, b.data, j);
      }
    }
    if forall j :: 0 <= j < r.spb ==> When(s, ops, j) == Slice(b.data, j) {
      AllInStep(r.disk, first, r.spb, b.data);
    }
    BlockOf(r, t, b.block);
  }

  /** A flush of buffer i as far as sector k. */
  lemma {:induction false} FlushTo(s: State, i: nat, k: nat) returns (ops: seq<Op>)
    requires Inv(s) && s.busy < 0 && i < |s.bufs| && s.bufs[i].dirty && k <= s.spb
    ensures Legal(s, ops) && Kept(s, ops) && Inv(Run(s, ops)) && Fail !in ops
    ensures Run(s, ops) == State(s.spb, Run(s, ops).disk, s.bufs, i, k)
    decreases k
  {
    hide Inv, First, Legal, Kept, Run, Region;
    if k == 0 {
      ops := [Begin(i)];
      RunOne(s, Begin(i));
    } else {
      ops := FlushTo(s, i, k - 1);
      var t := Run(s, ops);
      InvParts(t);
      StepKeeps(t, Sector);
      LegalMore(s, ops, Sector);
      ops := ops + [Sector];
    }
    if k == 0 { StepKeeps(s, Begin(i)); }
  }

  lemma RunOne(s: State, op: Op)
    requires Enabled(s, op)
    ensures Legal(s, [op]) && Run(s, [op]) == Apply(s, op) && (Disciplined(s, op) ==> Kept(s, [op]))
  {
    hide Enabled, Apply, Disciplined;
    assert [op][..0] == [];
    assert Legal(s, []) && Run(s, []) == s && Kept(s, []);
  }

  /** Any change to the first sector, stored once that has been written, and even marked, is lost: the flush succeeds,
      the buffer is clean, and the disk is not what the filesystem sees. */
  lemma StoreBehindFlush(s: State, i: nat, data: seq<Byte>) returns (ops: seq<Op>)
    requires Inv(s) && s.busy < 0 && i < |s.bufs| && s.bufs[i].dirty && s.bufs[i].inUse
    requires |data| == |s.bufs[i].data| && Slice(data, 0) != Slice(s.bufs[i].data, 0)
    ensures Legal(s, ops) && Fail !in ops
    ensures var t, n := Run(s, ops), s.bufs[i].block;
            && t.busy < 0 && i < |t.bufs| && t.bufs[i] == s.bufs[i].(data := data, dirty := false, pending := false)
            && OnDisk(t, n) && View(t, n) == data && Block(t, n) != data
  {
    hide Inv, First, Legal, Kept, Run, Region, Slice;
    InvParts(s);
    ops := FlushTo(s, i, s.spb);
    var t := Run(s, ops);
    InvParts(t);
    assert t.disk[First(t.bufs[i].block, t.spb) + 0] == Slice(t.bufs[i].data, 0);
    LegalMore(s, ops, Store(i, data));
    LegalMore(s, ops + [Store(i, data)], Mark(i));
    LegalMore(s, ops + [Store(i, data)] + [Mark(i)], End);
    ops := ops + [Store(i, data)] + [Mark(i)] + [End];
    var u, n := Run(s, ops), s.bufs[i].block;
    SameBlocks(s.bufs, u.bufs, n);
    FindIs(s.bufs, i);
    BlockOf(t, u, n);
    assert data[..u.spb * SECTOR_SIZE] == data;
    if Block(u, n) == data { BlockInStep(u.disk, First(n, u.spb), u.spb, data, 0); }
  }

  // ---------------------------------------------------------------------------------------------
  // What a release, a failed read, and a full cache do
  // ---------------------------------------------------------------------------------------------

  predicate NoStores(ops: seq<Op>) {
    forall k :: 0 <= k < |ops| ==> !ops[k].Store?
  }

  /** Without anyone storing into it, block n can come to read differently. */
  ghost predicate CanBeLost(s: State, n: nat)
    requires OnDisk(s, n)
  {
    exists ops :: Loses(s, n, ops)
  }

  ghost predicate Loses(s: State, n: nat, ops: seq<Op>)
    requires OnDisk(s, n)
  {
    Legal(s, ops) && Kept(s, ops) && NoStores(ops) && OnDisk(Run(s, ops), n) && View(Run(s, ops), n) != View(s, n)
  }

  lemma {:induction false} NothingStored(s: State, ops: seq<Op>, n: nat)
    requires Legal(s, ops) && OnDisk(s, n) && NoStores(ops)
    ensures LastStored(s, ops, n) == View(s, n)
    decreases |ops|
  {
    if ops != [] {
      NothingStored(s, ops[..|ops| - 1], n);
      assert !ops[|ops| - 1].Store?;
    }
  }

  /** In a right cache nothing is lost. */
  lemma NothingLost(s: State, n: nat)
    requires Inv(s) && OnDisk(s, n)
    ensures !CanBeLost(s, n)
  {
    hide Inv, Legal, Kept, Run, NoStores, View;
    forall ops ensures !Loses(s, n, ops) {
      if Legal(s, ops) && Kept(s, ops) && NoStores(ops) {
        RunKeeps(s, ops, n);
        NothingStored(s, ops, n);
      }
    }
  }

  /** Releasing a buffer puts its block at risk exactly if the buffer is not marked and differs from the disk: its
      buffer can then be taken, and what was stored is gone. */
  lemma ReleaseLosesIff(s: State, i: nat)
    requires Inv(s) && Enabled(s, Release(i))
    ensures var t, b := Apply(s, Release(i)), s.bufs[i];
            OnDisk(s, b.block) && OnDisk(t, b.block)
                && (CanBeLost(t, b.block) <==> !b.dirty && b.data != Block(s, b.block))
  {
    hide First, Region, CanBeLost, Legal, Kept, Run;
    var t, b := Apply(s, Release(i)), s.bufs[i];
    var n := b.block;
    BlockOf(s, t, n);
    InvParts(s);
    SameBlocks(s.bufs, t.bufs, n);
    FindIs(s.bufs, i);
    if b.dirty || b.data == Block(s, n) {
      forall j | 0 <= j < |t.bufs| ensures Safe(t, t.bufs[j]) && (!t.bufs[j].inUse ==> !t.bufs[j].pending) {
        SafeAt(s, j);
        BlockOf(s, t, t.bufs[j].block);
      }
      NothingLost(t, n);
    } else {
      RunOne(t, Take(i));
      var u := Run(t, [Take(i)]);
      SameCached(t, i, u);
      FindIs(u.bufs, 0);
      assert OnDisk(u, n) && View(u, n) == Block(s, n);
      Lost(t, n, [Take(i)]);
    }
  }

  lemma SameCached(s: State, i: nat, t: State)
    requires CachedOnce(s.bufs) && Enabled(s, Take(i)) && t == Apply(s, Take(i))
    ensures CachedOnce(t.bufs)
  {
    hide First, Region;
    assert t.bufs[1..] == Without(s.bufs, i);
    MovedAt(s.bufs, i, t.bufs);
  }

  lemma Lost(s: State, n: nat, ops: seq<Op>)
    requires OnDisk(s, n) && Legal(s, ops) && Kept(s, ops) && NoStores(ops)
    requires OnDisk(Run(s, ops), n) && View(Run(s, ops), n) != View(s, n)
    ensures CanBeLost(s, n)
  {
    assert Loses(s, n, ops);
  }

  /** What a failed read of a new buffer leaves behind: the buffer, at the front, neither in use nor dirty, with data in
      which only some sectors have arrived. */
  function FailedRead(s: State, n: nat, data: seq<Byte>): State {
    s.(bufs := [Buf(n, data, false, false, false)] + s.bufs)
  }

  /** The next to ask for block n gets that buffer, without any reading, and so reads what the block held before exactly
      if that is what the page had in it. */
  lemma FailedReadServed(s: State, n: nat, data: seq<Byte>)
    requires Inv(s) && s.busy < 0 && Find(s.bufs, n) < 0 && OnDisk(s, n) && |data| == s.spb * SECTOR_SIZE
    ensures var t := FailedRead(s, n, data);
            && Find(t.bufs, n) == 0 && Enabled(t, Hit(0)) && OnDisk(Apply(t, Hit(0)), n)
            && Apply(t, Hit(0)).bufs[0] == Buf(n, data, false, true, false)
            && (View(Apply(t, Hit(0)), n) == View(s, n) <==> data == Block(s, n))
  {
    hide First, Region;
    var t := FailedRead(s, n, data);
    assert forall j :: 0 < j < |t.bufs| ==> t.bufs[j] == s.bufs[j - 1];
    FindIs(t.bufs, 0);
    SameBlocks(t.bufs, Apply(t, Hit(0)).bufs, n);
  }

  /** With the cache full, and a buffer idle, whoever asks for a block not cached gets the buffer of another block. */
  lemma StolenIsWrong(s: State, n: nat) returns (ops: seq<Op>)
    requires Inv(s) && s.busy < 0 && Find(s.bufs, n) < 0 && Oldest(s.bufs) >= 0
    ensures Legal(s, ops) && Kept(s, ops) && ops != [] && ops[|ops| - 1] == Take(Oldest(s.bufs))
    ensures var t := Run(s, ops);
            t.bufs != [] && t.bufs[0].inUse && t.bufs[0].block == s.bufs[Oldest(s.bufs)].block != n
  {
    hide Inv, First, Legal, Kept, Run, Region, Find, Oldest;
    InvParts(s);
    var o := Oldest(s.bufs);
    if s.bufs[o].dirty {
      ops := FlushTo(s, o, s.spb);
      StepKeeps(Run(s, ops), End);
      LegalMore(s, ops, End);
      ops := ops + [End];
    } else {
      ops := [];
      RunNone(s);
    }
    SafeAt(Run(s, ops), o);
    LegalMore(s, ops, Take(o));
    ops := ops + [Take(o)];
  }

  lemma RunNone(s: State)
    ensures Legal(s, []) && Kept(s, []) && Run(s, []) == s
  {
  }

  lemma LowerOnDisk(s: State, n: nat, m: nat)
    requires OnDisk(s, m) && n <= m
    ensures OnDisk(s, n)
  {
    if n < m { Apart(n, m, s.spb); Product(m - n, s.spb); assert (m - n) * s.spb == m * s.spb - n * s.spb; }
  }

  /** k blocks, read and released one after the other. */
  predicate Filled(s: State, t: State, k: nat) {
    t == State(s.spb, s.disk, t.bufs, -1, 0) && |t.bufs| == k
    && forall i :: 0 <= i < k ==> t.bufs[i].block < k && !t.bufs[i].dirty && !t.bufs[i].inUse && !t.bufs[i].pending
  }

  lemma {:induction false} FillTo(s: State, k: nat) returns (ops: seq<Op>)
    requires Empty(s) && k <= MAX_BLOCKS && OnDisk(s, k)
    ensures Legal(s, ops) && Kept(s, ops) && Filled(s, Run(s, ops), k)
    decreases k
  {
    hide First, Legal, Kept, Run, Region;
    if k == 0 {
      ops := [];
      RunNone(s);
    } else {
      LowerOnDisk(s, k - 1, k);
      ops := FillTo(s, k - 1);
      var t := Run(s, ops);
      assert Find(t.bufs, k - 1) < 0;
      BlockOf(s, t, k - 1);
      LegalMore(s, ops, Miss(k - 1));
      var u := Run(s, ops + [Miss(k - 1)]);
      assert u.bufs[1..] == t.bufs;
      assert forall i :: 0 < i < k ==> u.bufs[i] == t.bufs[i - 1];
      LegalMore(s, ops + [Miss(k - 1)], Release(0));
      ops := ops + [Miss(k - 1)] + [Release(0)];
      assert Run(s, ops).bufs[1..] == u.bufs[1..];
    }
  }

  /** On a device of more blocks than the cache holds, this does happen: from an empty cache, disciplined holders come
      to where the one who asks for block MAX_BLOCKS gets another block's buffer. */
  lemma WrongBlockReached(s: State) returns (ops: seq<Op>, more: seq<Op>)
    requires Empty(s) && OnDisk(s, MAX_BLOCKS)
    ensures Legal(s, ops) && Kept(s, ops) && Legal(Run(s, ops), more) && Kept(Run(s, ops), more)
    ensures var t, u := Run(s, ops), Run(Run(s, ops), more);
            && t.busy < 0 && |t.bufs| == MAX_BLOCKS && Find(t.bufs, MAX_BLOCKS) < 0 && Oldest(t.bufs) >= 0
            && more != [] && more[|more| - 1] == Take(Oldest(t.bufs))
            && u.bufs != [] && u.bufs[0].inUse && u.bufs[0].block != MAX_BLOCKS
  {
    hide Inv, Legal, Kept, Run, Region, First;
    ops := FillTo(s, MAX_BLOCKS);
    EmptyInv(s);
    RunKeeps(s, ops, MAX_BLOCKS);
    var t := Run(s, ops);
    assert !t.bufs[|t.bufs| - 1].inUse;
    more := StolenIsWrong(t, MAX_BLOCKS);
  }
}
