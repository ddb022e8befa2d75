/** The buffer cache itself: buffers in a list, a device that may fail, and the calls that move data between them. */
module Bufcache {
  import opened Seqs

  import opened BufcacheSpec

  const EIO := -5
  const ENOMEM := -6

  /** A block device; every transfer may fail. faults counts those that did. */
  class Device {
    var sectors: seq<seq<Byte>>
    ghost var faults: nat

    constructor (contents: seq<seq<Byte>>)
      ensures sectors == contents && faults == 0
    {
      sectors := contents;
      faults := 0;
    }

    method BlockRead(blockNum: nat, ptr: array<Byte>, offset: nat) returns (rc: int)
      requires Formatted(sectors) && offset + SECTOR_SIZE <= ptr.Length
      modifies ptr, `faults
      ensures rc == 0 ==> blockNum < |sectors| && faults == old(faults)
                          && ptr[..] == old(ptr[..offset]) + sectors[blockNum] + old(ptr[offset + SECTOR_SIZE..])
      ensures rc != 0 ==> ptr[..] == old(ptr[..]) && faults == old(faults) + 1
    {
      if blockNum >= |sectors| { faults := faults + 1; return EIO; }
      if * { faults := faults + 1; return EIO; }
      forall j | 0 <= j < SECTOR_SIZE { ptr[offset + j] := sectors[blockNum][j]; }
      return 0;
    }

    method BlockWrite(blockNum: nat, ptr: array<Byte>, offset: nat) returns (rc: int)
      requires offset + SECTOR_SIZE <= ptr.Length
      modifies this
      ensures rc == 0 ==> blockNum < |old(sectors)| && faults == old(faults)
                          && sectors == old(sectors)[blockNum := ptr[offset..offset + SECTOR_SIZE]]
      ensures rc != 0 ==> sectors == old(sectors) && faults == old(faults) + 1
    {
      if blockNum >= |sectors| { faults := faults + 1; return EIO; }
      if * { faults := faults + 1; return EIO; }
      sectors := sectors[blockNum := ptr[offset..offset + SECTOR_SIZE]];
      return 0;
    }
  }

  class Buffer {
    const fsBlockNum: nat
    const data: array<Byte>
    var dirty: bool
    var inUse: bool
    /** The holder has stored into data since it last marked the buffer. */
    ghost var pending: bool

    constructor (n: nat, size: nat)
      ensures fsBlockNum == n && fresh(data) && data.Length == size && !dirty && !inUse && !pending
    {
      fsBlockNum := n;
      data := new Byte[size];
      dirty, inUse, pending := false, false, false;
    }

    ghost function Contents(): Buf
      reads this, data
    {
      Buf(fsBlockNum, data[..], dirty, inUse, pending)
    }
  }

  ghost function PartsOf(l: seq<Buffer>): set<object> {
    (set b: Buffer | b in l :: b as object) + (set b: Buffer | b in l :: b.data as object)
  }

  lemma PartsOfFront(b: Buffer, l: seq<Buffer>)
    ensures PartsOf([b] + l) == PartsOf(l) + {b, b.data}
  {
    var m := [b] + l;
    assert b in m;
    assert forall c: Buffer :: c in m <==> c == b || c in l;
  }

  lemma PartsOfSame(a: seq<Buffer>, b: seq<Buffer>)
    requires forall x: Buffer :: x in a <==> x in b
    ensures PartsOf(a) == PartsOf(b)
  {
  }

  datatype Outcome = Got(buf: Buffer) | Waits | Failed(rc: int)

  class Cache {
    const dev: Device
    const spb: nat
    var numCached: nat
    var list: seq<Buffer>
    /** The flush in progress: which buffer, and how far. */
    ghost var busy: int
    ghost var wrote: nat

    ghost function Parts(): set<object>
      reads this
    {
      PartsOf(list)
    }

    lemma InParts(b: Buffer)
      requires b in list
      ensures b in Parts() && b.data in Parts()
    {
    }

    ghost function At(i: nat): Buf
      requires i < |list|
      reads this, Parts()
    {
      var b := list[i];
      assert b in list;
      b.Contents()
    }

    ghost predicate Valid()
      reads this
    {
      && spb > 0 && numCached == |list|
      && (forall i :: 0 <= i < |list| ==> list[i].data.Length == spb * SECTOR_SIZE)
      && (forall i, j :: 0 <= i < j < |list| ==> list[i] != list[j] && list[i].data != list[j].data)
    }

    ghost function Abs(): State
      reads this, dev, Parts()
    {
      State(spb, dev.sectors, seq(|list|, i requires 0 <= i < |list| reads this, Parts() => At(i)), busy, wrote)
    }

    constructor (device: Device, fsBlockSize: nat)
      requires fsBlockSize > 0 && fsBlockSize % SECTOR_SIZE == 0 && Formatted(device.sectors)
      ensures dev == device && Valid() && Parts() == {} && spb * SECTOR_SIZE == fsBlockSize
      ensures Empty(Abs()) && Abs().disk == device.sectors
    {
      dev := device;
      spb := fsBlockSize / SECTOR_SIZE;
      numCached := 0;
      list := [];
      busy, wrote := -1, 0;
    }

    // ---------------------------------------------------------------------------------------------
    // Holders
    // ---------------------------------------------------------------------------------------------

    /** Modify_FS_Buffer. */
    method Modify(ghost i: nat, buf: Buffer)
      requires Valid() && i < |list| && buf == list[i] && buf.inUse
      modifies buf`dirty, buf`pending
      ensures Abs() == Apply(old(Abs()), Mark(i))
    {
      ghost var s := Abs();
      assert s.bufs[i] == buf.Contents();
      buf.dirty, buf.pending := true, false;
      assert At(i) == buf.Contents();
      assert Abs() == Apply(s, Mark(i));
    }

    /** A holder stores one byte. */
    method Store(ghost i: nat, buf: Buffer, k: nat, value: Byte)
      requires Valid() && i < |list| && buf == list[i] && buf.inUse && k < buf.data.Length
      modifies buf.data, buf`pending
      ensures Abs() == Apply(old(Abs()), BufcacheSpec.Store(i, old(buf.data[..])[k := value]))
      ensures busy != i || k >= wrote * SECTOR_SIZE
              ==> Disciplined(old(Abs()), BufcacheSpec.Store(i, old(buf.data[..])[k := value]))
    {
      ghost var s := Abs();
      ghost var op := BufcacheSpec.Store(i, buf.data[..][k := value]);
      assert s.bufs[i] == buf.Contents();
      if k >= wrote * SECTOR_SIZE { StoredAhead(buf.data[..], k, value, wrote); }
      buf.data[k] := value;
      buf.pending := true;
      assert At(i) == buf.Contents();
      assert Abs() == Apply(s, op);
    }

    /** What other threads do while this one sleeps in a transfer, with the lock held: any of those that hold a buffer
        may store into it and mark it, but not into the sectors already written of the buffer that is being flushed. */
    method Others(i: int, written: nat) returns (ghost ops: seq<Op>)
      requires Valid() && i == busy && written == wrote
      modifies Parts()
      ensures Valid() && SameUse(list, old(Abs()), Abs())
      ensures Legal(old(Abs()), ops) && Kept(old(Abs()), ops) && Run(old(Abs()), ops) == Abs() && HoldersOnly(ops)
    {
      hide Legal, Kept, Run, Enabled, Disciplined;
      ghost var s := Abs();
      ops := [];
      RunNone(s);
      var turns: nat := *;
      while turns > 0
        invariant Valid() && SameUse(list, s, Abs()) && HoldersOnly(ops)
        invariant Legal(s, ops) && Kept(s, ops) && Run(s, ops) == Abs()
      {
        var j: int, k: int, value: Byte := *, *, *;
        if 0 <= j < |list| && list[j].inUse {
          ghost var op := OneTurn(i, written, j, k, value);
          LegalMore(s, ops, op);
          ops := ops + [op];
        }
        turns := turns - 1;
      }
    }

    method OneTurn(i: int, written: nat, j: nat, k: int, value: Byte) returns (ghost op: Op)
      requires Valid() && i == busy && written == wrote && j < |list| && list[j].inUse
      modifies Parts()
      ensures Valid() && SameUse(list, old(Abs()), Abs()) && (op.Store? || op.Mark?)
      ensures Enabled(old(Abs()), op) && Disciplined(old(Abs()), op) && Abs() == Apply(old(Abs()), op)
    {
      var buf := list[j];
      InParts(buf);
      ghost var s := Abs();
      assert s.bufs[j] == buf.Contents();
      if 0 <= k < buf.data.Length && (i != j || k >= written * SECTOR_SIZE) {
        op := BufcacheSpec.Store(j, buf.data[..][k := value]);
        Store(j, buf, k, value);
      } else {
        op := Mark(j);
        Modify(j, buf);
      }
    }

    // ---------------------------------------------------------------------------------------------
    // Flushing
    // ---------------------------------------------------------------------------------------------

    /** One turn of Do_Buffer_IO with Block_Write. */
    method WriteSector(buf: Buffer, sectorCount: nat) returns (rc: int)
      requires Valid() && 0 <= busy < |list| && buf == list[busy] && sectorCount == wrote < spb
      requires First(buf.fsBlockNum, spb) + spb <= |dev.sectors|
      modifies dev, `wrote
      ensures rc == 0 ==> 512 * sectorCount + 512 <= buf.data.Length
                          && buf.fsBlockNum * spb + sectorCount < |old(dev.sectors)|
                          && dev.sectors == old(dev.sectors)[buf.fsBlockNum * spb + sectorCount :=
                                                               buf.data[512 * sectorCount..512 * sectorCount + 512]]
      ensures rc == 0 ==>
          Enabled(old(Abs()), Sector) && Abs() == Apply(old(Abs()), Sector) && dev.faults == old(dev.faults)
      ensures rc != 0 ==> Abs() == old(Abs()) && dev.faults > old(dev.faults)
      ensures wrote == old(wrote) + (if rc == 0 then 1 else 0) && Abs().bufs == old(Abs()).bufs
    {
      FirstIs(buf.fsBlockNum, spb);
      hide First;
      ghost var s := Abs();
      assert s.bufs[busy] == buf.Contents();
      rc := dev.BlockWrite(First(buf.fsBlockNum, spb) + sectorCount, buf.data, sectorCount * SECTOR_SIZE);
      if rc == 0 {
        wrote := wrote + 1;
        assert Abs().bufs == s.bufs;
        assert Slice(s.bufs[busy].data, sectorCount)
            == buf.data[sectorCount * SECTOR_SIZE..sectorCount * SECTOR_SIZE + SECTOR_SIZE];
      }
    }

    /** Do_Buffer_IO with Block_Write, as Sync_Buffer calls it for the dirty buffer i: it sleeps after every sector. */
    method WriteBuffer(i: nat, buf: Buffer, ghost s: State, ghost begun: seq<Op>) returns (rc: int, ghost ops: seq<Op>)
      requires Valid() && Inv(s) && i < |list| && buf == list[i] && busy == i && wrote == 0
      requires Legal(s, begun) && Kept(s, begun) && Run(s, begun) == Abs() && FlushOnly(begun, i)
      modifies dev, `wrote, Parts()
      ensures Valid() && busy == i && FlushOnly(ops, i)
      ensures Legal(s, ops) && Kept(s, ops) && Run(s, ops) == Abs()
      ensures SameUse(list, old(Abs()).(disk := Abs().disk, wrote := wrote), Abs())
      ensures rc == 0 ==> wrote == spb && dev.faults == old(dev.faults)
      ensures rc != 0 ==> wrote < spb && dev.faults > old(dev.faults)
      ensures Calm(ops) ==> Abs().bufs == old(Abs()).bufs
    {
      hide Legal, Kept, Run, Inv, Enabled, Apply, Disciplined, First;
      ops := begun;
      ghost var t := Abs();
      var sectorCount := 0;
      while sectorCount < spb
        invariant sectorCount == wrote <= spb && busy == i && Valid() && FlushOnly(ops, i)
        invariant Legal(s, ops) && Kept(s, ops) && Run(s, ops) == Abs()
        invariant SameUse(list, t.(disk := Abs().disk, wrote := wrote), Abs())
        invariant dev.faults == old(dev.faults) && (Calm(ops) ==> Abs().bufs == t.bufs)
      {
        RunKeepsInv(s, ops);
        BusyOnDisk(Abs());
        assert Abs().bufs[i] == buf.Contents();
        rc := WriteSector(buf, sectorCount);
        if rc != 0 { return; }
        SectorIsKept(Run(s, ops));
        LegalMore(s, ops, Sector);
        CalmBefore(ops, Sector);
        ops := ops + [Sector];
        sectorCount := sectorCount + 1;
        ghost var u := Abs();
        ghost var more := Others(i, sectorCount);
        RunJoin(s, ops, more);
        CalmParts(ops, more, u);
        ops := ops + more;
      }
      rc := 0;
    }

    /** The end of a flush, or its failure. */
    method FlushOver(i: nat, buf: Buffer, done: bool) returns (ghost op: Op)
      requires Valid() && i < |list| && buf == list[i] && busy == i && if done then wrote == spb else wrote < spb
      modifies `busy, `wrote, buf`dirty
      ensures op == (if done then End else Fail) && busy == -1 && buf.dirty == (old(buf.dirty) && !done)
      ensures Enabled(old(Abs()), op) && Disciplined(old(Abs()), op) && Abs() == Apply(old(Abs()), op)
      ensures SameBuffers(old(Abs()).bufs, Abs().bufs)
      ensures done ==> Abs().bufs == old(Abs()).bufs[i := old(buf.Contents()).(dirty := false)]
    {
      ghost var t := Abs();
      op := if done then End else Fail;
      assert t.bufs[i] == buf.Contents();
      OverIs(t, op);
      hide Enabled, Disciplined, Apply;
      if done { buf.dirty := false; }
      busy, wrote := -1, 0;
      assert forall j :: 0 <= j < |list| && j != i ==> At(j) == t.bufs[j];
      assert At(i) == buf.Contents();
      assert Abs().bufs == if done then t.bufs[i := t.bufs[i].(dirty := false)] else t.bufs;
    }

    /** Sync_Buffer. Others store and mark between its sectors; what they did is in ops. */
    method SyncBuffer(i: nat, buf: Buffer) returns (rc: int, ghost ops: seq<Op>)
      requires Valid() && Inv(Abs()) && i < |list| && buf == list[i] && busy == -1
      modifies dev, `busy, `wrote, Parts()
      ensures Valid() && Inv(Abs()) && Steps(old(Abs()), ops, Abs()) && FlushOnly(ops, i)
      ensures busy == -1 && SameBuffers(old(Abs()).bufs, Abs().bufs)
      ensures rc == 0 ==> !buf.dirty && dev.faults == old(dev.faults)
      ensures rc != 0 ==> buf.dirty && dev.faults > old(dev.faults)
      ensures !old(buf.dirty) ==> ops == []
      ensures rc == 0 && Calm(ops) ==> Abs().bufs == old(Abs()).bufs[i := old(buf.Contents()).(dirty := false)]
    {
      hide Inv, First, Legal, Kept, Run, Enabled, Disciplined, Apply;
      ghost var s := Abs();
      assert s.bufs[i] == buf.Contents();
      ops := [];
      RunNone(s);
      rc := 0;
      if buf.dirty {
        BusyIs(s);
        BeginIs(s, i);
        RunOne(s, Begin(i));
        busy, wrote := i, 0;
        assert Abs().bufs == s.bufs;
        rc, ops := WriteBuffer(i, buf, s, [Begin(i)]);
        RunKeepsInv(s, ops);
        BusyOnDisk(Abs());
        ghost var op := FlushOver(i, buf, rc == 0);
        LegalMore(s, ops, op);
        CalmBefore(ops, op);
        ops := ops + [op];
        RunKeepsInv(s, ops);
      } else {
        assert Abs() == s;
      }
    }

    // ---------------------------------------------------------------------------------------------
    // Getting a buffer
    // ---------------------------------------------------------------------------------------------

    /** Do_Buffer_IO with Block_Read: done sectors arrive before the first error. */
    method ReadBuffer(buf: Buffer) returns (rc: int, ghost done: nat)
      requires spb > 0 && buf.data.Length == spb * SECTOR_SIZE && Formatted(dev.sectors)
      modifies buf.data, dev`faults
      ensures if rc == 0 then dev.faults == old(dev.faults) else dev.faults > old(dev.faults)
      ensures done <= spb && (rc == 0 <==> done == spb)
          && (done > 0 ==> First(buf.fsBlockNum, spb) + done <= |dev.sectors|)
      ensures done > 0 ==>
          buf.data[..] == Region(dev.sectors, First(buf.fsBlockNum, spb), done) + old(buf.data[done * SECTOR_SIZE..])
      ensures done == 0 ==> buf.data[..] == old(buf.data[..])
    {
      hide First, Formatted;
      var blockNum := First(buf.fsBlockNum, spb);
      var offset, sectorCount := 0, 0;
      ghost var was := buf.data[..];
      while offset < spb * SECTOR_SIZE
        invariant offset == sectorCount * SECTOR_SIZE && sectorCount <= spb
        invariant blockNum == First(buf.fsBlockNum, spb) + sectorCount
        invariant sectorCount > 0 ==> blockNum <= |dev.sectors|
        invariant sectorCount > 0 ==>
            buf.data[..] == Region(dev.sectors, First(buf.fsBlockNum, spb), sectorCount) + was[offset..]
        invariant sectorCount == 0 ==> buf.data[..] == was
        invariant dev.faults == old(dev.faults)
      {
        ghost var before := buf.data[..];
        rc := dev.BlockRead(blockNum, buf.data, offset);
        if rc != 0 { return rc, sectorCount; }
        RegionLength(dev.sectors, First(buf.fsBlockNum, spb), sectorCount);
        Arrived(dev.sectors, First(buf.fsBlockNum, spb), sectorCount, before, was, buf.data[..]);
        sectorCount := sectorCount + 1;
        blockNum := blockNum + 1;
        offset := offset + SECTOR_SIZE;
      }
      return 0, sectorCount;
    }

    /** The search loop of Get_Buffer: the buffer of the block, or else the last one not in use. */
    method Search(fsBlockNum: nat) returns (found: int, lru: int)
      requires Valid()
      ensures found == Find(Abs().bufs, fsBlockNum)
      ensures found < 0 ==> lru == Oldest(Abs().bufs)
    {
      ghost var bufs := Abs().bufs;
      lru := -1;
      var i := 0;
      while i < |list|
        invariant 0 <= i <= |list|
        invariant forall j :: 0 <= j < i ==> bufs[j].block != fsBlockNum
        invariant -1 <= lru < i && (lru >= 0 ==> !bufs[lru].inUse)
        invariant forall j :: lru < j < i ==> bufs[j].inUse
      {
        assert bufs[i] == list[i].Contents();
        if list[i].fsBlockNum == fsBlockNum { return i, lru; }
        if !list[i].inUse { lru := i; }
        i := i + 1;
      }
      return -1, lru;
    }

    /** Add_To_Front_Of_FS_Buffer_List. */
    method AddToFront(buf: Buffer)
      requires Valid() && buf.data.Length == spb * SECTOR_SIZE
      requires forall i :: 0 <= i < |list| ==> list[i] != buf && list[i].data != buf.data
      modifies this`list
      ensures list == [buf] + old(list) && Parts() == old(Parts()) + {buf, buf.data}
      ensures Abs() == old(Abs()).(bufs := [buf.Contents()] + old(Abs()).bufs)
    {
      ghost var s := Abs();
      list := [buf] + list;
      assert At(0) == buf.Contents();
      assert forall i :: 0 <= i < |s.bufs| ==> At(i + 1) == s.bufs[i];
      assert Abs().bufs == [buf.Contents()] + s.bufs;
      PartsOfFront(buf, old(list));
    }

    /** The end of Get_Buffer: the front buffer is filled from the disk and acquired. After an error it holds some
        of the sectors. */
    method ReadAndAcquire(buf: Buffer) returns (rc: int)
      requires Valid() && list != [] && buf == list[0] && Formatted(Abs().disk)
      modifies buf.data, buf`inUse, dev`faults
      ensures Valid() && if rc == 0 then dev.faults == old(dev.faults) else dev.faults > old(dev.faults)
      ensures var s, b := old(Abs()), old(Abs()).bufs[0];
              rc == 0 ==>
                  buf.inUse && OnDisk(s, b.block)
                  && Abs() == s.(bufs := s.bufs[0 := Buf(b.block, Block(s, b.block), b.dirty, true, b.pending)])
      ensures var s, b, data := old(Abs()), old(Abs()).bufs[0], buf.data[..];
              rc != 0 ==> Abs() == s.(bufs := s.bufs[0 := b.(data := data)])
                          && (OnDisk(s, b.block) && b.data == Block(s, b.block) ==> data == b.data)
    {
      hide First, Region, Formatted;
      ghost var s := Abs();
      assert s.bufs[0] == buf.Contents();
      ghost var done, was := 0, buf.data[..];
      rc, done := ReadBuffer(buf);
      if rc == 0 {
        WholeRead(s, buf.fsBlockNum, buf.data[..]);
        buf.inUse := true;
      } else if OnDisk(s, buf.fsBlockNum) && was == Block(s, buf.fsBlockNum) && done > 0 {
        PartRead(s.disk, First(buf.fsBlockNum, spb), done, spb);
      }
      assert forall i :: 0 < i < |s.bufs| ==> At(i) == s.bufs[i];
      assert Abs().bufs == s.bufs[0 := buf.Contents()];
    }

    /** A new buffer at the front, with whatever its page held. */
    method AddNew(n: nat) returns (buf: Buffer)
      requires Valid()
      modifies this`list, this`numCached
      ensures Valid() && fresh(buf) && fresh(buf.data) && list == [buf] + old(list)
          && Parts() == old(Parts()) + {buf, buf.data}
      ensures buf.fsBlockNum == n && buf.data.Length == spb * SECTOR_SIZE
      ensures Abs() == FailedRead(old(Abs()), n, buf.data[..])
    {
      buf := new Buffer(n, spb * SECTOR_SIZE);
      AddToFront(buf);
      numCached := numCached + 1;
    }

    /** The branch of Get_Buffer for a new buffer. A failed read leaves the buffer in the list. */
    method Create(n: nat) returns (rc: int, buf: Buffer)
      requires Valid() && Inv(Abs()) && busy == -1 && Find(Abs().bufs, n) < 0 && |list| < MAX_BLOCKS
      modifies this`list, this`numCached, dev`faults
      ensures Valid() && fresh(buf) && fresh(buf.data) && list == [buf] + old(list)
          && Parts() == old(Parts()) + {buf, buf.data}
      ensures buf.fsBlockNum == n
      ensures rc == 0 ==> buf.inUse && Enabled(old(Abs()), Miss(n)) && Abs() == Apply(old(Abs()), Miss(n))
      ensures rc != 0 ==> |buf.data[..]| == spb * SECTOR_SIZE && Abs() == FailedRead(old(Abs()), n, buf.data[..])
      ensures if rc == 0 then dev.faults == old(dev.faults) else dev.faults > old(dev.faults)
    {
      hide Inv, First, Region, Find, Formatted, Apply, Enabled, Block, OnDisk;
      ghost var s := Abs();
      SizedFormat(s);
      buf := AddNew(n);
      ghost var t := Abs();
      rc := ReadAndAcquire(buf);
      SameBlock(s, t, n);
      if rc == 0 { MissIs(s, n, t, Abs()); }
    }

    /** Move_To_Front. */
    method MoveToFront(i: nat, buf: Buffer)
      requires Valid() && i < |list| && buf == list[i]
      modifies this`list
      ensures Valid() && list == [buf] + Without(old(list), i) && Parts() == old(Parts())
      ensures Abs() == old(Abs()).(bufs := [old(Abs()).bufs[i]] + Without(old(Abs()).bufs, i))
    {
      ghost var s := Abs();
      ghost var was := list;
      hide Without, PartsOf;
      assert forall j :: 0 <= j < |was| ==> s.bufs[j] == was[j].Contents();
      list := Without(list, i);
      list := [buf] + list;
      ghost var bufs := [s.bufs[i]] + Without(s.bufs, i);
      assert forall j, k :: 0 <= j < k < |list| ==> list[j] != list[k] && list[j].data != list[k].data by {
        FrontAt(was, i, list);
        StillDistinct(was, i, list);
      }
      assert |list| == |was| && forall j :: 0 <= j < |list| ==> list[j].data.Length == spb * SECTOR_SIZE by {
        FrontAt(was, i, list);
      }
      assert Parts() == PartsOf(was) by {
        FrontAt(was, i, list);
        SameMembers(was, i, list);
        PartsOfSame(was, list);
      }
      assert Abs().bufs == bufs by {
        FrontAt(was, i, list);
        FrontAt(s.bufs, i, bufs);
        assert forall j :: 0 <= j < |list| ==> list[j].Contents() == bufs[j];
      }
    }

    /** Its second half: a clean, idle buffer is moved to the front and read again. */
    method TakeClean(i: nat, buf: Buffer) returns (rc: int)
      requires Valid() && Inv(Abs()) && busy == -1 && i < |list| && buf == list[i] && !buf.inUse && !buf.dirty
      modifies dev`faults, this`list, buf`dirty, buf`inUse, buf.data
      ensures Valid() && list == [buf] + Without(old(list), i) && Parts() == old(Parts())
      ensures var s, op := old(Abs()), if rc == 0 then Take(i) else Pass(i);
              Enabled(s, op) && Disciplined(s, op) && Abs() == Apply(s, op)
      ensures if rc == 0 then buf.inUse && dev.faults == old(dev.faults) else dev.faults > old(dev.faults)
    {
      hide Inv, First, Region, Block, Safe, Enabled, Disciplined, Apply;
      ghost var t := Abs();
      assert t.bufs[i] == buf.Contents();
      InvParts(t);
      SafeAt(t, i);
      CleanAt(t, i);
      buf.dirty, buf.inUse := false, false;
      assert forall j :: 0 <= j < |t.bufs| ==> At(j) == t.bufs[j];
      assert Abs() == t;
      MoveToFront(i, buf);
      ghost var u := Abs();
      SameBlock(t, u, buf.fsBlockNum);
      rc := ReadAndAcquire(buf);
      TakeOrPass(t, i, u, Abs(), rc == 0);
    }

    /** The branch of Get_Buffer that takes the oldest buffer: it is flushed, moved to the front and read again, for the
        block it always had. */
    method TakeOldest(i: nat, buf: Buffer) returns (rc: int, ghost ops: seq<Op>)
      requires Valid() && Inv(Abs()) && busy == -1 && i < |list| && buf == list[i] && !buf.inUse
      modifies dev, this`list, `busy, `wrote, Parts()
      ensures Valid() && Inv(Abs()) && busy == -1 && Steps(old(Abs()), ops, Abs())
      ensures (list == old(list) || list == [buf] + Without(old(list), i)) && Parts() == old(Parts())
      ensures rc == 0 ==> list[0] == buf && buf.inUse && TookOldest(ops, i) && dev.faults == old(dev.faults)
      ensures rc != 0 ==> dev.faults > old(dev.faults)
    {
      hide Inv, First, Legal, Kept, Run, Enabled, Disciplined, Apply;
      ghost var s := Abs();
      assert s.bufs[i] == buf.Contents();
      rc, ops := SyncBuffer(i, buf);
      if rc != 0 { return; }
      rc := TakeClean(i, buf);
      ghost var op := if rc == 0 then Take(i) else Pass(i);
      LegalMore(s, ops, op);
      ops := ops + [op];
      RunKeepsInv(s, ops);
    }

    method Acquire(ghost i: nat, buf: Buffer)
      requires Valid() && busy == -1 && i < |list| && buf == list[i] && !buf.inUse
      modifies buf`inUse
      ensures Valid() && buf.inUse && Enabled(old(Abs()), Hit(i)) && Abs() == Apply(old(Abs()), Hit(i))
    {
      ghost var s := Abs();
      assert s.bufs[i] == buf.Contents();
      buf.inUse := true;
      assert At(i) == buf.Contents();
      assert Abs() == Apply(s, Hit(i));
    }

    /** Get_Buffer, called with the cache lock held; memory says whether a new buffer could be allocated. A caller
        that finds its buffer in use waits, and looks again once it is released. It fails only if a transfer does, or if
        there is nothing to give. */
    method GetBuffer(fsBlockNum: nat, memory: bool) returns (r: Outcome, ghost ops: seq<Op>)
      requires Valid() && Inv(Abs()) && busy == -1
      modifies dev, this, Parts()
      ensures Valid() && fresh(Parts() - old(Parts())) && busy == -1
      ensures var s, i := old(Abs()), Find(old(Abs()).bufs, fsBlockNum); r.Waits? <==> i >= 0 && s.bufs[i].inUse
      ensures r.Waits? ==> Abs() == old(Abs())
      ensures r.Got? ==> Inv(Abs()) && Steps(old(Abs()), ops, Abs()) && Acquired(old(Abs()), ops, fsBlockNum, memory)
      ensures r.Got? ==> r.buf in list && r.buf.inUse
      ensures r.Got? ==> var i, o := Find(old(Abs()).bufs, fsBlockNum), Oldest(old(Abs()).bufs);
              if i >= 0 then r.buf == old(list)[i] && list == old(list)
              else if RoomFor(old(Abs()), memory) then fresh(r.buf) && list == [r.buf] + old(list)
              else o >= 0 && r.buf == old(list)[o] && list == [r.buf] + Without(old(list), o)
      ensures r.Got? ==> (r.buf.fsBlockNum == fsBlockNum
                          <==> Find(old(Abs()).bufs, fsBlockNum) >= 0 || RoomFor(old(Abs()), memory))
      ensures r.Failed? ==> Find(old(Abs()).bufs, fsBlockNum) < 0
      ensures r.Failed? ==> dev.faults > old(dev.faults)
                            || (r.rc == ENOMEM && !RoomFor(old(Abs()), memory) && Oldest(old(Abs()).bufs) < 0)
      ensures r.Failed? ==> r.rc != 0
                            && if RoomFor(old(Abs()), memory)
                               then Abs() == FailedRead(old(Abs()), fsBlockNum, FrontData(Abs()))
                               else Inv(Abs()) && Steps(old(Abs()), ops, Abs())
    {
      hide Inv, First, Region, Block, Find, Oldest, OnDisk, Apply, Steps, Enabled;
      ghost var s := Abs();
      ops := [];
      var found, lru := Search(fsBlockNum);
      if found >= 0 {
        var buf := list[found];
        assert s.bufs[found] == buf.Contents();
        if buf.inUse { return Waits, []; }
        InParts(buf);
        Acquire(found, buf);
        SingleStep(s, Hit(found), Abs());
        return Got(buf), [Hit(found)];
      }
      if numCached < MAX_BLOCKS && memory {
        var rc, buf := Create(fsBlockNum);
        assert At(0) == buf.Contents();
        if rc != 0 { return Failed(rc), []; }
        SingleStep(s, Miss(fsBlockNum), Abs());
        return Got(buf), [Miss(fsBlockNum)];
      }
      NoStep(s);
      if lru < 0 { return Failed(ENOMEM), []; }
      var buf := list[lru];
      assert s.bufs[lru] == buf.Contents();
      var rc;
      rc, ops := TakeOldest(lru, buf);
      if rc != 0 { return Failed(rc), ops; }
      assert At(0) == buf.Contents();
      return Got(buf), ops;
    }

    /** Release_FS_Buffer. */
    method Release(ghost i: nat, buf: Buffer) returns (rc: int)
      requires Valid() && busy == -1 && i < |list| && buf == list[i] && buf.inUse
      modifies buf`inUse, buf`pending
      ensures rc == 0 && Enabled(old(Abs()), BufcacheSpec.Release(i))
          && Abs() == Apply(old(Abs()), BufcacheSpec.Release(i))
    {
      ghost var s := Abs();
      assert s.bufs[i] == buf.Contents();
      buf.inUse, buf.pending := false, false;
      assert At(i) == buf.Contents();
      assert Abs() == Apply(s, BufcacheSpec.Release(i));
      rc := 0;
    }

    /** Sync_Cache: flushes every dirty buffer, up to the first error. Others store and mark meanwhile: what they do
        to a buffer already flushed is left for another time. */
    method SyncCache() returns (rc: int, ghost ops: seq<Op>)
      requires Valid() && Inv(Abs()) && busy == -1
      modifies dev, `busy, `wrote, Parts()
      ensures Valid() && Inv(Abs()) && busy == -1 && Steps(old(Abs()), ops, Abs())
      ensures if rc == 0 then dev.faults == old(dev.faults) else dev.faults > old(dev.faults)
      ensures rc == 0 ==> forall i :: 0 <= i < |list| ==> CleanedIn(old(Abs()), ops, i)
      ensures rc == 0 && Calm(ops) ==> NoneDirty(Abs()) && (NonePending(old(Abs())) ==> DiskIsView(old(Abs()), Abs()))
    {
      hide Inv, Legal, Kept, Run, Steps, CleanedIn, Calm;
      ghost var s := Abs();
      ops := [];
      NoStep(s);
      var i := 0;
      while i < |list|
        invariant 0 <= i <= |list| && Valid() && Inv(Abs()) && busy == -1 && Steps(s, ops, Abs())
        invariant dev.faults == old(dev.faults)
        invariant forall j :: 0 <= j < i ==> CleanedIn(s, ops, j)
        invariant Calm(ops) ==> Flushed(s.bufs, Abs().bufs, i)
      {
        ghost var t, more := Abs(), [];
        var buf := list[i];
        assert t.bufs[i] == buf.Contents();
        rc, more := SyncBuffer(i, buf);
        StepsJoin(s, ops, t, more, Abs());
        CalmJoin(ops, more);
        forall j | 0 <= j < i ensures CleanedIn(s, ops + more, j) { CleanedMore(s, ops, more, j); }
        ops := ops + more;
        if rc != 0 { return; }
        assert Abs().bufs[i] == buf.Contents();
        CleanedNow(s, ops, Abs(), i);
        i := i + 1;
      }
      rc := 0;
      if Calm(ops) {
        FlushedAll(s, Abs());
        if NonePending(s) { DiskHolds(s, ops, Abs()); }
      }
    }
  }

  /** No holder stores or marks. */
  predicate Calm(ops: seq<Op>) {
    forall k :: 0 <= k < |ops| ==> !ops[k].Store? && !ops[k].Mark?
  }

  lemma CalmBefore(ops: seq<Op>, op: Op)
    ensures Calm(ops + [op]) ==> Calm(ops)
  {
    assert forall k :: 0 <= k < |ops| ==> (ops + [op])[k] == ops[k];
  }

  lemma CalmJoin(a: seq<Op>, b: seq<Op>)
    ensures Calm(a + b) ==> Calm(a) && Calm(b)
  {
    assert forall k :: 0 <= k < |a| ==> (a + b)[k] == a[k];
    assert forall k :: 0 <= k < |b| ==> (a + b)[|a| + k] == b[k];
  }

  lemma CalmParts(a: seq<Op>, b: seq<Op>, s: State)
    requires HoldersOnly(b) && Legal(s, b)
    ensures Calm(a + b) ==> Calm(a) && Run(s, b) == s
  {
    CalmJoin(a, b);
    if Calm(b) { assert b == []; }
  }

  predicate NoneDirty(s: State) {
    forall i :: 0 <= i < |s.bufs| ==> !s.bufs[i].dirty
  }

  predicate NonePending(s: State) {
    forall i :: 0 <= i < |s.bufs| ==> !s.bufs[i].pending
  }

  /** At some moment of the run buffer i was clean. */
  ghost predicate CleanedIn(s: State, ops: seq<Op>, i: nat) {
    exists k {:trigger ops[..k]} :: 0 <= k <= |ops| && Legal(s, ops[..k]) && i < |Run(s, ops[..k]).bufs|
        && !Run(s, ops[..k]).bufs[i].dirty
  }

  lemma CleanedMore(s: State, ops: seq<Op>, more: seq<Op>, i: nat)
    requires CleanedIn(s, ops, i)
    ensures CleanedIn(s, ops + more, i)
  {
    hide Legal, Run;
    var k :| 0 <= k <= |ops| && Legal(s, ops[..k]) && i < |Run(s, ops[..k]).bufs| && !Run(s, ops[..k]).bufs[i].dirty;
    assert (ops + more)[..k] == ops[..k];
  }

  lemma CleanedNow(s: State, ops: seq<Op>, t: State, i: nat)
    requires Steps(s, ops, t) && i < |t.bufs| && !t.bufs[i].dirty
    ensures CleanedIn(s, ops, i)
  {
    hide Legal, Run;
    assert ops[..|ops|] == ops;
  }

  lemma StepsJoin(s: State, a: seq<Op>, t: State, b: seq<Op>, u: State)
    requires Steps(s, a, t) && Steps(t, b, u)
    ensures Steps(s, a + b, u)
  {
    hide Legal, Run, Kept;
    RunJoin(s, a, b);
  }

  /** The first i buffers have been flushed, and nothing else is different. */
  predicate Flushed(a: seq<Buf>, b: seq<Buf>, i: nat) {
    |a| == |b| && forall j :: 0 <= j < |a| ==> b[j] == if j < i then a[j].(dirty := false) else a[j]
  }

  lemma FlushedAll(s: State, t: State)
    requires Flushed(s.bufs, t.bufs, |t.bufs|)
    ensures NoneDirty(t) && (NonePending(s) ==> NonePending(t))
  {
  }

  /** The disk of t alone holds everything the filesystem saw in s. */
  ghost predicate DiskIsView(s: State, t: State) {
    forall n :: OnDisk(s, n) ==> OnDisk(t, n) && Block(t, n) == View(s, n)
  }

  lemma DiskHolds(s: State, ops: seq<Op>, t: State)
    requires Inv(s) && Steps(s, ops, t) && Calm(ops) && NoneDirty(t) && NonePending(t)
    ensures DiskIsView(s, t)
  {
    hide Inv, Legal, Run, Kept, View, Block, OnDisk;
    assert NoStores(ops);
    forall n | OnDisk(s, n) ensures OnDisk(t, n) && Block(t, n) == View(s, n) {
      RunKeeps(s, ops, n);
      NothingStored(s, ops, n);
      CleanIsWritten(t, n);
    }
  }

  /** A new buffer may be made. */
  predicate RoomFor(s: State, memory: bool) {
    memory && |s.bufs| < MAX_BLOCKS
  }

  function FrontData(s: State): seq<Byte> {
    if s.bufs == [] then [] else s.bufs[0].data
  }

  /** Buffer i was flushed, if it had to be, and taken. */
  predicate TookOldest(ops: seq<Op>, i: nat) {
    ops != [] && ops[|ops| - 1] == Take(i) && FlushOnly(ops[..|ops| - 1], i)
  }

  /** How a buffer is acquired: the cached one, a new one, or the oldest idle one after a flush. */
  ghost predicate Acquired(s: State, ops: seq<Op>, n: nat, memory: bool) {
    var i, o := Find(s.bufs, n), Oldest(s.bufs);
    if i >= 0 then ops == [Hit(i)]
    else if RoomFor(s, memory) then ops == [Miss(n)]
    else o >= 0 && TookOldest(ops, o)
  }

  lemma SingleStep(s: State, op: Op, t: State)
    requires Inv(s) && Enabled(s, op) && t == Apply(s, op) && (op.Hit? || op.Miss?)
    ensures Steps(s, [op], t) && Inv(t)
  {
    hide Inv, Apply;
    RunOne(s, op);
    StepKeeps(s, op);
  }

  lemma NoStep(s: State)
    ensures Steps(s, [], s)
  {
    RunNone(s);
  }

  lemma CleanAt(s: State, i: nat)
    requires i < |s.bufs| && OnDisk(s, s.bufs[i].block) && Safe(s, s.bufs[i]) && !s.bufs[i].dirty && !s.bufs[i].pending
    ensures s.bufs[i].data == Block(s, s.bufs[i].block)
  {
  }

  /** The oldest buffer, clean, moved to the front and read again, or not. */
  lemma TakeOrPass(t: State, i: nat, u: State, v: State, read: bool)
    requires t.busy < 0 && i < |t.bufs| && !t.bufs[i].inUse && !t.bufs[i].dirty && !t.bufs[i].pending
    requires OnDisk(t, t.bufs[i].block) && OnDisk(u, t.bufs[i].block) && t.bufs[i].data == Block(t, t.bufs[i].block)
    requires u == t.(bufs := [t.bufs[i]] + Without(t.bufs, i))
    requires read ==> v == u.(bufs := u.bufs[0 := Buf(t.bufs[i].block, Block(u, t.bufs[i].block), false, true, false)])
    requires !read ==> v == u
    ensures var op := if read then Take(i) else Pass(i); Enabled(t, op) && Disciplined(t, op) && v == Apply(t, op)
  {
    hide First, Without, Region;
    SameBlock(t, u, t.bufs[i].block);
  }

  lemma StillDistinct(a: seq<Buffer>, i: nat, b: seq<Buffer>)
    requires i < |a| && |b| == |a| && b[0] == a[i] && forall j :: 0 < j < |b| ==> b[j] == a[if j <= i then j - 1 else j]
    requires forall j, k :: 0 <= j < k < |a| ==> a[j] != a[k] && a[j].data != a[k].data
    ensures forall j, k :: 0 <= j < k < |b| ==> b[j] != b[k] && b[j].data != b[k].data
  {
  }

  lemma SizedFormat(s: State)
    requires Inv(s)
    ensures Formatted(s.disk)
  {
  }

  lemma MissIs(s: State, n: nat, t: State, v: State)
    requires s.busy < 0 && Find(s.bufs, n) < 0 && |s.bufs| < MAX_BLOCKS && OnDisk(s, n)
    requires |t.bufs| == |s.bufs| + 1 && t.bufs[1..] == s.bufs
    requires v == s.(bufs := t.bufs[0 := Buf(n, Block(s, n), false, true, false)])
    ensures Enabled(s, Miss(n)) && v == Apply(s, Miss(n))
  {
    hide First, Region, Find;
  }

  lemma SameMembers(a: seq<Buffer>, i: nat, b: seq<Buffer>)
    requires i < |a| && |b| == |a| && forall j :: 0 <= j < |b| ==>
        b[j] == a[if j == 0 then i else if j <= i then j - 1 else j]
    ensures forall x :: x in a <==> x in b
  {
    assert forall j :: 0 <= j < |a| ==> a[j] == b[if j == i then 0 else if j < i then j + 1 else j];
  }

  /** Where the elements are after one was moved to the front. */
  lemma FrontAt<T>(a: seq<T>, i: nat, b: seq<T>)
    requires i < |a| && b == [a[i]] + Without(a, i)
    ensures |b| == |a| && forall j :: 0 <= j < |b| ==> b[j] == a[if j == 0 then i else if j <= i then j - 1 else j]
  {
    assert b[1..] == Without(a, i);
    MovedAt(a, i, b);
  }

  lemma SameBlock(s: State, t: State, n: nat)
    requires s.spb == t.spb && s.disk == t.disk
    ensures OnDisk(s, n) <==> OnDisk(t, n)
    ensures OnDisk(s, n) ==> Block(s, n) == Block(t, n)
  {
  }

  /** Reading again what a buffer already holds changes nothing. */
  lemma {:induction false} PartRead(disk: seq<seq<Byte>>, first: nat, done: nat, spb: nat)
    requires done <= spb && first + spb <= |disk| && Formatted(disk)
    ensures |Region(disk, first, spb)| == spb * SECTOR_SIZE
    ensures Region(disk, first, done) + Region(disk, first, spb)[done * SECTOR_SIZE..] == Region(disk, first, spb)
    decreases spb
  {
    RegionLength(disk, first, spb);
    RegionLength(disk, first, done);
    if done < spb {
      PartRead(disk, first, done, spb - 1);
      var r := Region(disk, first, spb - 1);
      assert Region(disk, first, spb)[done * SECTOR_SIZE..] == r[done * SECTOR_SIZE..] + disk[first + spb - 1];
    }
  }

  lemma WholeRead(s: State, n: nat, data: seq<Byte>)
    requires s.spb > 0 && First(n, s.spb) + s.spb <= |s.disk|
    requires data == Region(s.disk, First(n, s.spb), s.spb) + []
    ensures OnDisk(s, n) && data == Block(s, n)
  {
  }

  lemma Arrived(disk: seq<seq<Byte>>, first: nat, count: nat, before: seq<Byte>, was: seq<Byte>, now: seq<Byte>)
    requires first + count < |disk| && |disk[first + count]| == SECTOR_SIZE
    requires |was| == |before| && (count + 1) * SECTOR_SIZE <= |was|
    requires count > 0 ==> before == Region(disk, first, count) + was[count * SECTOR_SIZE..]
    requires count == 0 ==> before == was
    requires |Region(disk, first, count)| == count * SECTOR_SIZE
    requires now == before[..count * SECTOR_SIZE] + disk[first + count] + before[count * SECTOR_SIZE + SECTOR_SIZE..]
    ensures now == Region(disk, first, count + 1) + was[(count + 1) * SECTOR_SIZE..]
  {
    var r := Region(disk, first, count);
    assert Region(disk, first, count + 1) == r + disk[first + count];
    if count > 0 {
      assert before[..count * SECTOR_SIZE] == r;
      assert before[count * SECTOR_SIZE + SECTOR_SIZE..] == was[(count + 1) * SECTOR_SIZE..];
    }
  }

  /** s becomes t by ops, in which holders do what they owe. */
  ghost predicate Steps(s: State, ops: seq<Op>, t: State) {
    Legal(s, ops) && Kept(s, ops) && Run(s, ops) == t
  }

  ghost predicate SameBuffers(a: seq<Buf>, b: seq<Buf>) {
    |a| == |b| && forall i :: 0 <= i < |a| ==> a[i].block == b[i].block && a[i].inUse == b[i].inUse
  }

  lemma BusyIs(s: State)
    requires Inv(s)
    ensures s.busy >= 0 ==> s.busy < |s.bufs|
  {
  }

  lemma BeginIs(s: State, i: nat)
    requires s.busy < 0 && i < |s.bufs| && s.bufs[i].dirty
    ensures Enabled(s, Begin(i)) && Disciplined(s, Begin(i)) && Apply(s, Begin(i)) == s.(busy := i, wrote := 0)
  {
  }

  lemma OverIs(s: State, op: Op)
    requires 0 <= s.busy < |s.bufs| && (op.End? || op.Fail?) && if op.End? then s.wrote == s.spb else s.wrote < s.spb
    ensures Enabled(s, op) && Disciplined(s, op)
    ensures op.End? ==>
        Apply(s, op) == s.(bufs := s.bufs[s.busy := s.bufs[s.busy].(dirty := false)], busy := -1, wrote := 0)
    ensures op.Fail? ==> Apply(s, op) == s.(busy := -1, wrote := 0)
  {
  }

  lemma RunKeepsInv(s: State, ops: seq<Op>)
    requires Inv(s) && Legal(s, ops) && Kept(s, ops)
    ensures Inv(Run(s, ops))
    decreases |ops|
  {
    hide Inv, Enabled, Apply, Disciplined;
    if ops != [] {
      RunKeepsInv(s, ops[..|ops| - 1]);
      StepKeeps(Run(s, ops[..|ops| - 1]), ops[|ops| - 1]);
    }
  }

  lemma BusyOnDisk(s: State)
    requires Inv(s) && 0 <= s.busy < |s.bufs|
    ensures First(s.bufs[s.busy].block, s.spb) + s.spb <= |s.disk| && s.bufs[s.busy].dirty
  {
  }

  lemma SectorIsKept(s: State)
    requires Enabled(s, Sector)
    ensures Disciplined(s, Sector)
  {
  }

  /** What happens in a flush of buffer i, or in the flushes of a whole list. */
  predicate FlushOnly(ops: seq<Op>, i: nat) {
    forall k :: 0 <= k < |ops| ==>
      ops[k] == Begin(i) || ops[k].Sector? || ops[k].End? || ops[k].Fail? || ops[k].Store? || ops[k].Mark?
  }

  lemma StoredAhead(data: seq<Byte>, k: nat, value: Byte, wrote: nat)
    requires k < |data| && k >= wrote * SECTOR_SIZE
    ensures forall j :: 0 <= j < wrote ==> Slice(data[k := value], j) == Slice(data, j)
  {
  }

  predicate HoldersOnly(ops: seq<Op>) {
    forall k :: 0 <= k < |ops| ==> ops[k].Store? || ops[k].Mark?
  }

  /** The same buffers, for the same blocks, in the same use. */
  ghost predicate SameUse(list: seq<Buffer>, s: State, t: State) {
    && t.spb == s.spb && t.disk == s.disk && t.busy == s.busy && t.wrote == s.wrote && |t.bufs| == |s.bufs| == |list|
    && forall i :: 0 <= i < |s.bufs| ==> t.bufs[i].block == s.bufs[i].block && t.bufs[i].inUse == s.bufs[i].inUse
  }
}
