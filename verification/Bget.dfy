/** Bytes within the allocator's 4-byte words, low byte first. */
module Bytes {

  function Byte(w: int, j: nat): (b: int)
    ensures 0 <= b < 256
    decreases j
  {
    if j == 0 then w % 256 else Byte(w / 256, j - 1)
  }

  /** Word w with byte j replaced by v. */
  function WithByte(w: int, j: nat, v: int): int
    decreases j
  {
    if j == 0 then w / 256 * 256 + v else w % 256 + 256 * WithByte(w / 256, j - 1, v)
  }

  lemma {:induction false} WithByteAt(w: int, j: nat, v: int, i: nat)
    requires 0 <= v < 256
    ensures Byte(WithByte(w, j, v), i) == if i == j then v else Byte(w, i)
    decreases j
  {
    if j == 0 {
      LowDigit(w / 256, v);
    } else {
      LowDigit(WithByte(w / 256, j - 1, v), w % 256);
      if i > 0 { WithByteAt(w / 256, j - 1, v, i - 1); }
    }
  }

  lemma LowDigit(q: int, r: int)
    requires 0 <= r < 256
    ensures (q * 256 + r) / 256 == q && (q * 256 + r) % 256 == r
  {
  }

  /** The byte at byte address p; 0 outside memory. */
  function ByteAt(m: seq<int>, p: int): (b: int)
    ensures 0 <= b < 256
  {
    if 0 <= p < 4 * |m| then Byte(m[p / 4], p % 4) else 0
  }

  function Put(m: seq<int>, p: int, v: int): (m': seq<int>)
    requires 0 <= p < 4 * |m|
    ensures |m'| == |m|
  {
    m[p / 4 := WithByte(m[p / 4], p % 4, v)]
  }

  lemma PutAt(m: seq<int>, p: int, v: int, q: int)
    requires 0 <= p < 4 * |m| && 0 <= v < 256
    ensures ByteAt(Put(m, p, v), q) == if q == p then v else ByteAt(m, q)
  {
    if 0 <= q < 4 * |m| && q / 4 == p / 4 { WithByteAt(m[p / 4], p % 4, v, q % 4); }
  }

  /** Words that lie outside the n bytes from dst on are the same in both memories. */
  ghost predicate OutsideSame(m: seq<int>, m': seq<int>, dst: int, n: int) {
    |m| == |m'| && forall i {:trigger m'[i]} :: 0 <= i < |m| && (4 * i + 4 <= dst || dst + n <= 4 * i) ==> m'[i] == m[i]
  }

  ghost predicate Filled(m: seq<int>, dst: int, v: int, n: int) {
    forall q {:trigger ByteAt(m, q)} :: dst <= q < dst + n ==> ByteAt(m, q) == v
  }

  /** The n bytes from dst on are those that were at src. */
  ghost predicate Copied(m: seq<int>, m': seq<int>, src: int, dst: int, n: int) {
    forall q {:trigger ByteAt(m', q)} :: dst <= q < dst + n ==> ByteAt(m', q) == ByteAt(m, src + (q - dst))
  }

  /** memset (src/common/string.c), dst being a byte address. */
  method Memset(mem: array<int>, dst: int, v: int, n: nat)
    requires 0 <= dst && dst + n <= 4 * mem.Length && 0 <= v < 256
    modifies mem
    ensures forall q {:trigger ByteAt(mem[..], q)} :: ByteAt(mem[..], q) == if dst <= q < dst + n then v
        else ByteAt(old(mem[..]), q)
    ensures OutsideSame(old(mem[..]), mem[..], dst, n)
  {
    var p, left := dst, n;
    while left > 0
      invariant 0 <= left <= n && p == dst + n - left
      invariant forall q {:trigger ByteAt(mem[..], q)} :: ByteAt(mem[..], q) == if dst <= q < p then v
          else ByteAt(old(mem[..]), q)
      invariant OutsideSame(old(mem[..]), mem[..], dst, n)
    {
      ghost var was := mem[..];
      mem[p / 4] := WithByte(mem[p / 4], p % 4, v);
      assert mem[..] == Put(was, p, v);
      forall q ensures ByteAt(mem[..], q) == if q == p then v else ByteAt(was, q) { PutAt(was, p, v, q); }
      p, left := p + 1, left - 1;
    }
  }

  /** memcpy (src/common/string.c) between regions that do not overlap. */
  method Memcpy(mem: array<int>, dst: int, src: int, n: nat)
    requires 0 <= dst && dst + n <= 4 * mem.Length && 0 <= src && src + n <= 4 * mem.Length
    requires dst + n <= src || src + n <= dst
    modifies mem
    ensures forall q {:trigger ByteAt(mem[..], q)} ::
              ByteAt(mem[..], q) == if dst <= q < dst + n then ByteAt(old(mem[..]), src + (q - dst))
                  else ByteAt(old(mem[..]), q)
    ensures OutsideSame(old(mem[..]), mem[..], dst, n)
  {
    var d, s, left := dst, src, n;
    while left > 0
      invariant 0 <= left <= n && d == dst + n - left && s == src + n - left
      invariant forall q {:trigger ByteAt(mem[..], q)} ::
                  ByteAt(mem[..], q) == if dst <= q < d then ByteAt(old(mem[..]), src + (q - dst))
                      else ByteAt(old(mem[..]), q)
      invariant OutsideSame(old(mem[..]), mem[..], dst, n)
    {
      ghost var was := mem[..];
      var v := Byte(mem[s / 4], s % 4);
      assert v == ByteAt(was, s);
      mem[d / 4] := WithByte(mem[d / 4], d % 4, v);
      assert mem[..] == Put(was, d, v);
      forall q ensures ByteAt(mem[..], q) == if q == d then v else ByteAt(was, q) { PutAt(was, d, v, q); }
      d, s, left := d + 1, s + 1, left - 1;
    }
  }
}

/** The BGET allocator (src/geekos/bget.c) over real memory. */
module Bget {
  import opened Seqs
  import opened BgetSpec
  import opened BgetMemory
  import opened Bytes

  /** The largest bufsize. */
  const INT_MAX := 0x7fff_ffff

  /** Bytes a client may use in the buffer at buf. */
  function Capacity(h: Heap, buf: int): int {
    if buf - HEADER in h.size then 4 * (h.size[buf - HEADER] - HEADER) else 0
  }

  lemma PayloadByte(m: seq<int>, m': seq<int>, h: Heap, x: int, q: int)
    requires x in h.size && SamePayload(m, m', h, x) && 4 * (x + HEADER) <= q < 4 * End(h, x)
    ensures ByteAt(m', q) == ByteAt(m, q)
  {
    assert m'[q / 4] == m[q / 4];
  }

  function Min(x: int, y: int): int {
    if x < y then x else y
  }

  /** Bytes copied from block a to block c stay there while a is released. */
  lemma CopiedBytes(m: seq<int>, m1: seq<int>, m2: seq<int>, g: Heap, a: int, c: int, n: int)
    requires Live(g, c) && c != a && OthersSame(m1, m2, g, a) && n <= Capacity(g, c + HEADER)
    requires Copied(m, m1, 4 * (a + HEADER), 4 * (c + HEADER), n)
    ensures Copied(m, m2, 4 * (a + HEADER), 4 * (c + HEADER), n)
  {
    assert SamePayload(m1, m2, g, c);
    forall q | 4 * (c + HEADER) <= q < 4 * (c + HEADER) + n
      ensures ByteAt(m2, q) == ByteAt(m, 4 * (a + HEADER) + (q - 4 * (c + HEADER)))
    {
      PayloadByte(m1, m2, g, c, q);
    }
  }

  /** What is copied from a live buffer after an allocation is what was there before. */
  lemma CopiedFromOld(m: seq<int>, m1: seq<int>, m2: seq<int>, h: Heap, src: int, dst: int, n: int)
    requires Live(h, src - HEADER) && src != HEADER && OthersSame(m, m1, h, NULL) && n <= Capacity(h, src)
    requires Copied(m1, m2, 4 * src, 4 * dst, n)
    ensures Copied(m, m2, 4 * src, 4 * dst, n)
  {
    assert SamePayload(m, m1, h, src - HEADER);
    forall q | 4 * dst <= q < 4 * dst + n ensures ByteAt(m2, q) == ByteAt(m, 4 * src + (q - 4 * dst)) {
      PayloadByte(m, m1, h, src - HEADER, 4 * src + (q - 4 * dst));
    }
  }

  class Allocator {
    /** Memory in 4-byte words; the static list head is at LIST_HEAD. */
    const mem: array<int>
    /** The blocks, their neighbours and the free list that memory holds. */
    ghost var heap: Heap

    ghost predicate Valid()
      reads this, mem
    {
      Inv(heap) && Mirror(mem[..], heap)
    }

    constructor (words: nat)
      requires words >= BASE
      ensures Valid() && heap == EMPTY && mem.Length == words
    {
      heap := EMPTY;
      mem := new int[words];
      new;
      mem[LIST_HEAD + PREVFREE] := 0;
      mem[LIST_HEAD + BSIZE] := 0;
      mem[LIST_HEAD + FLINK] := LIST_HEAD;
      mem[LIST_HEAD + BLINK] := LIST_HEAD;
      EmptyHeap();
      assert LinkedAt(mem[..], heap.free, 0);
    }

    /** The four stores by which bpool and brel put block b at the back of the free list. */
    method LinkAtBack(b: int)
      requires Shape(heap) && Ring(mem[..], heap.free) && BASE <= b && b + BLINK < mem.Length
      modifies mem
      ensures Appended(old(mem[..]), mem[..], heap, b)
    {
      ghost var h, m := heap, mem[..];
      RingAt(m, h.free, 0);
      RingAt(m, h.free, |h.free|);
      NodesApart(h, |h.free|, |h.free|);
      hide Shape, Ring;
      assert mem[mem[LIST_HEAD + BLINK] + FLINK] == LIST_HEAD && mem[mem[LIST_HEAD + FLINK] + BLINK] == LIST_HEAD;
      mem[b + FLINK] := LIST_HEAD;
      mem[b + BLINK] := mem[LIST_HEAD + BLINK];
      mem[LIST_HEAD + BLINK] := b;
      mem[mem[b + BLINK] + FLINK] := b;
    }

    /** The two stores by which bget and brel take free block i off the list. */
    method Unlink(b: int, ghost i: nat)
      requires Shape(heap) && Ring(mem[..], heap.free) && i < |heap.free| && b == heap.free[i]
      modifies mem
      ensures Unlinked(old(mem[..]), mem[..], heap, i)
    {
      Neighbours(mem[..], heap, i);
      hide Shape, Ring;
      assert mem[mem[b + BLINK] + FLINK] == b && mem[mem[b + FLINK] + BLINK] == b;
      mem[mem[b + BLINK] + FLINK] := mem[b + FLINK];
      mem[mem[b + FLINK] + BLINK] := mem[b + BLINK];
    }

    /** bpool: adds a region, of which whole words are used. */
    method Bpool(start: int, bytes: int)
      requires Valid() && 0 <= bytes <= INT_MAX
      requires CanAdd(heap, start, bytes / 4) && start + bytes / 4 <= mem.Length
      modifies mem, this`heap
      ensures Valid() && heap == AddPool(old(heap), start, bytes / 4)
      ensures OthersSame(old(mem[..]), mem[..], old(heap), NULL)
    {
      var len := bytes / 4;
      ghost var h, m := heap, mem[..];
      assert 4 * (len - HEADER) <= -(ESENT + 1);
      LinkAtBack(start);
      ghost var m1 := mem[..];
      mem[start + PREVFREE] := 0;
      len := len - HEADER;
      mem[start + BSIZE] := len;
      var bn := start + len;
      mem[bn + PREVFREE] := len;
      mem[bn + BSIZE] := ESENT;
      assert PoolStores(m, m1, mem[..], h, start, bytes / 4);
      AddPoolMirror(m, m1, mem[..], h, start, bytes / 4);
      AddPoolKeepsInv(h, start, bytes / 4);
      forall x | Live(h, x)
        ensures SamePayload(m, mem[..], h, x)
      {
        PoolPayload(m, m1, mem[..], h, start, bytes / 4, x);
      }
      heap := AddPool(h, start, bytes / 4);
    }

    /** The scan of the free list in bget: the first of the smallest blocks that hold n words. */
    method FindBest(n: int) returns (best: int)
      requires Valid()
      ensures best == if Best(heap, n) == -1 then LIST_HEAD else heap.free[Best(heap, n)]
    {
      hide Linked, Pools, InBounds, Headers, Distinct;
      ghost var k := 0;
      ghost var free := heap.free;
      RingAt(mem[..], free, 0);
      var b := mem[LIST_HEAD + FLINK];
      best := LIST_HEAD;
      while b != LIST_HEAD
        invariant 0 <= k <= |free| && b == Node(free, k + 1)
        invariant best == if BestOf(heap, n, k) == -1 then LIST_HEAD else free[BestOf(heap, n, k)]
        decreases |free| - k
      {
        NodesApart(heap, k + 1, 0);
        HeaderOf(mem[..], heap, b);
        if mem[b + BSIZE] >= n {
          if BestOf(heap, n, k) != -1 { BestListed(best); }
          if best == LIST_HEAD || mem[b + BSIZE] < mem[best + BSIZE] {
            best := b;
          }
        }
        RingAt(mem[..], free, k + 1);
        b := mem[b + FLINK];
        k := k + 1;
      }
      if k < |free| { NodesApart(heap, k + 1, 0); }
    }

    lemma BestListed(b: int)
      requires Valid() && b in heap.free
      ensures b in heap.size && BASE <= b && b + BSIZE < mem.Length && mem[b + BSIZE] == heap.size[b] && b != LIST_HEAD
    {
      FreeInSize(heap, b);
      EndInBounds(mem[..], heap, b);
      HeaderOf(mem[..], heap, b);
    }

    /** bget, when more than a minimal block would be left over: n words are cut from the end of b. */
    method CutFrom(b: int, n: int) returns (buf: int)
      requires Valid() && CanCut(heap, b, n)
      modifies mem, this`heap
      ensures Valid() && heap == Split(old(heap), b, n) && buf == End(old(heap), b) - n + HEADER
      ensures OthersSame(old(mem[..]), mem[..], old(heap), NULL)
    {
      ghost var h, m := heap, mem[..];
      BestListed(b);
      EndInBounds(m, h, b);
      HeaderOf(m, h, End(h, b));
      CutIsFresh(h, b, n);
      var ba := b + (mem[b + BSIZE] - n);
      var bn := ba + n;
      assert mem[bn + PREVFREE] == mem[b + BSIZE];
      mem[b + BSIZE] := mem[b + BSIZE] - n;
      mem[ba + PREVFREE] := mem[b + BSIZE];
      mem[ba + BSIZE] := -n;
      mem[bn + PREVFREE] := 0;
      buf := ba + HEADER;
      assert SplitStores(m, mem[..], h, b, n);
      SplitMirror(m, mem[..], h, b, n);
      SplitKeepsInv(h, b, n);
      forall x | Live(h, x) ensures SamePayload(m, mem[..], h, x) { SplitPayload(m, mem[..], h, b, n, x); }
      heap := Split(h, b, n);
    }

    /** bget, otherwise: all of free block i is handed out. */
    method HandOut(b: int, ghost i: nat) returns (buf: int)
      requires Valid() && i < |heap.free| && b == heap.free[i]
      modifies mem, this`heap
      ensures Valid() && heap == old(heap).(free := Without(old(heap).free, i)) && buf == b + HEADER
      ensures OthersSame(old(mem[..]), mem[..], old(heap), NULL)
    {
      ghost var h, m := heap, mem[..];
      BestListed(b);
      EndInBounds(m, h, b);
      HeaderOf(m, h, End(h, b));
      var ba := b + mem[b + BSIZE];
      assert mem[ba + PREVFREE] == mem[b + BSIZE];
      Unlink(b, i);
      ghost var m1 := mem[..];
      UnlinkMissesHeader(m, m1, h, i, b);
      mem[b + BSIZE] := -mem[b + BSIZE];
      mem[ba + PREVFREE] := 0;
      buf := b + FLINK;
      assert WholeStores(m, m1, mem[..], h, i);
      WholeMirror(m, m1, mem[..], h, i);
      WholeKeepsInv(h, i);
      forall x | Live(h, x) ensures SamePayload(m, mem[..], h, x) { WholePayload(m, m1, mem[..], h, i, x); }
      heap := h.(free := Without(h.free, i));
    }

    /** bget, once the size has been rounded to n words, header included. */
    method Serve(n: int) returns (buf: int)
      requires Valid() && n >= MIN_BLOCK
      modifies mem, this`heap
      ensures Valid() && heap == Get(old(heap), n).0
      ensures buf == if Get(old(heap), n).1 == NULL then NULL else Get(old(heap), n).1 + HEADER
      ensures OthersSame(old(mem[..]), mem[..], old(heap), NULL)
      ensures buf == NULL ==> mem[..] == old(mem[..])
    {
      var best := FindBest(n);
      ghost var h, i := heap, Best(heap, n);
      if best != LIST_HEAD {
        BestListed(best);
        BestIsBest(h, n, |h.free|);
        assert mem[best + BSIZE] >= n;
        if mem[best + BSIZE] - n > MIN_BLOCK {
          buf := CutFrom(best, n);
        } else {
          buf := HandOut(best, i);
        }
        assert Taken(h, best, n) != NULL;
      } else {
        forall j | 0 <= j < |h.free| ensures h.free[j] != LIST_HEAD { BestListed(h.free[j]); }
        NothingStored(mem[..], h, NULL);
        buf := NULL;
      }
    }

    /** bget: a buffer of at least so many bytes, or the null pointer. */
    method Bget(bytes: int) returns (buf: int)
      requires Valid() && 0 < bytes <= INT_MAX - 11
      modifies mem, this`heap
      ensures Valid() && heap == Get(old(heap), Need(bytes)).0
      ensures buf == if Get(old(heap), Need(bytes)).1 == NULL then NULL else Get(old(heap), Need(bytes)).1 + HEADER
      ensures OthersSame(old(mem[..]), mem[..], old(heap), NULL)
      ensures buf == NULL ==> mem[..] == old(mem[..])
      ensures buf == NULL <==> old(forall j :: 0 <= j < |heap.free| ==> 4 * heap.size[heap.free[j]] - 8 < bytes)
      ensures buf != NULL ==> Serves(old(heap), heap, bytes, buf - HEADER)
    {
      var size := bytes;
      if size < 4 * MIN_BODY {
        size := 4 * MIN_BODY;
      }
      size := (size + 3) / 4 + HEADER;
      NeedIsLeast(bytes, 0);
      assert size == Need(bytes);
      hide Inv, Mirror, Get, Need, Serves, OthersSame;
      BgetServes(heap, bytes);
      GetGives(heap, size);
      buf := Serve(size);
    }

    /** brel, first half: the block joins a free block before it, or goes to the back of the list. */
    method FreeOne(a: int) returns (b: int)
      requires Valid() && Live(heap, a)
      modifies mem, this`heap
      ensures heap == Freed(old(heap), a) && b == FreedAt(old(heap), a)
      ensures Pending(mem[..], heap, End(old(heap), a))
      ensures OthersSame(old(mem[..]), mem[..], old(heap), a)
    {
      ghost var h, m := heap, mem[..];
      EndInBounds(m, h, a);
      HeaderOf(m, h, a);
      b := a;
      if mem[b + PREVFREE] != 0 {
        var size := mem[b + BSIZE];
        PrevAt(h, a);
        EndInBounds(m, h, h.prev[a]);
        HeaderOf(m, h, h.prev[a]);
        assert mem[b - mem[b + PREVFREE] + BSIZE] == mem[b + PREVFREE];
        b := b - mem[b + PREVFREE];
        mem[b + BSIZE] := mem[b + BSIZE] - size;
        assert GrowStores(m, mem[..], h, b, a);
        FreedJoinsMirror(m, mem[..], h, a);
        forall x | Live(h, x) ensures SamePayload(m, mem[..], h, x) { GrowPayload(m, mem[..], h, b, a, x); }
      } else {
        PrevAt(h, a);
        BlockAt(h, PrevOf(h, a), a);
        LinkAtBack(b);
        ghost var m1 := mem[..];
        AppendMissesHeader(m, m1, h, a, a);
        mem[b + BSIZE] := -mem[b + BSIZE];
        FreedAppendsMirror(m, m1, mem[..], h, a);
        forall x | Live(h, x) && x != a
          ensures SamePayload(m, mem[..], h, x)
        {
          AppendOnePayload(m, m1, mem[..], h, a, x);
        }
      }
      heap := Freed(h, a);
    }

    /** brel, second half: the free block c behind b is taken off the list and added to b. */
    method Absorb(b: int, c: int) returns (d: int)
      requires Shape(heap) && Pending(mem[..], heap, c)
      requires b in heap.free && c in heap.free && b in heap.size && c in heap.size && End(heap, b) == c
      modifies mem, this`heap
      ensures heap == Join(old(heap), b, c) && d == End(old(heap), c)
      ensures Pending(mem[..], heap, d)
      ensures OthersSame(old(mem[..]), mem[..], old(heap), NULL)
    {
      ghost var h, m, i := heap, mem[..], IndexOf(heap.free, c);
      Unlink(c, i);
      ghost var m1 := mem[..];
      AbsorbedHeaders(m, m1, h, b, c);
      hide Shape, Pending, Unlinked;
      assert m[c + m[c + BSIZE] + PREVFREE] == m[c + BSIZE];
      mem[b + BSIZE] := mem[b + BSIZE] + mem[c + BSIZE];
      d := b + mem[b + BSIZE];
      ghost var m2 := mem[..];
      assert m2 == m1[b + BSIZE := h.size[b] + h.size[c]];
      JoinKeepsShape(h, b, c);
      JoinMirror(m, m1, m2, h, b, c);
      forall x | Live(h, x) ensures SamePayload(m, m2, h, x) { AbsorbPayload(m, m1, m2, h, b, c, x); }
      heap := Join(h, b, c);
    }

    /** brel: the buffer's block becomes free and is joined to its free neighbours. */
    method Brel(buf: int)
      requires Valid() && Live(heap, buf - HEADER)
      modifies mem, this`heap
      ensures Valid() && heap == Rel(old(heap), buf - HEADER)
      ensures OthersSame(old(mem[..]), mem[..], old(heap), buf - HEADER)
    {
      hide Inv, Mirror, Shape, Pending, Freed, Rel, Join, OthersSame;
      ghost var h, m, a := heap, mem[..], buf - HEADER;
      BusyHeader(m, h, a);
      assert buf != NULL;
      var b := buf - HEADER;
      assert mem[b + BSIZE] < 0;
      assert mem[b - mem[b + BSIZE] + PREVFREE] == 0;
      b := FreeOne(b);
      ghost var g, c := heap, End(h, a);
      FreedIsHalf(h, a);
      ghost var m1 := mem[..];
      PendingHeader(m1, g, b, c);
      var bn := b + mem[b + BSIZE];
      NothingStored(m1, g, NULL);
      if mem[bn + BSIZE] > 0 {
        bn := Absorb(b, bn);
      }
      RelKeepsInv(h, a);
      ghost var m2 := mem[..];
      LastHeader(m2, heap, b);
      assert mem[bn + BSIZE] < 0;
      mem[bn + PREVFREE] := mem[b + BSIZE];
      SettleMirror(m2, mem[..], heap, b);
      BrelPayloads(m, m1, m2, mem[..], h, a);
    }

    /** A client fills part of its own buffer. */
    method Fill(buf: int, offset: nat, v: int, n: nat)
      requires Valid() && Live(heap, buf - HEADER) && offset + n <= Capacity(heap, buf) && 0 <= v < 256
      modifies mem
      ensures Valid() && OthersSame(old(mem[..]), mem[..], heap, buf - HEADER)
      ensures forall q {:trigger ByteAt(mem[..], q)} ::
                ByteAt(mem[..], q) == if 4 * buf + offset <= q < 4 * buf + offset + n then v
                    else ByteAt(old(mem[..]), q)
    {
      ghost var m := mem[..];
      EndInBounds(m, heap, buf - HEADER);
      hide Inv, Mirror, OthersSame;
      Memset(mem, 4 * buf + offset, v, n);
      PayloadStoresKeepMirror(m, mem[..], heap, buf - HEADER);
    }

    /** bgetz, once there is a buffer: all of it is cleared, however much was asked for. */
    method Clear(buf: int)
      requires Valid() && Live(heap, buf - HEADER)
      modifies mem
      ensures Valid() && OthersSame(old(mem[..]), mem[..], heap, buf - HEADER)
      ensures Filled(mem[..], 4 * buf, 0, Capacity(heap, buf))
    {
      hide Inv, Mirror, OthersSame;
      BusyHeader(mem[..], heap, buf - HEADER);
      var b := buf - HEADER;
      var rsize := -mem[b + BSIZE];
      rsize := 4 * (rsize - HEADER);
      Fill(buf, 0, 0, rsize);
    }

    /** bgetz: as bget, with the whole buffer cleared. */
    method Bgetz(bytes: int) returns (buf: int)
      requires Valid() && 0 < bytes <= INT_MAX - 11
      modifies mem, this`heap
      ensures Valid() && heap == Get(old(heap), Need(bytes)).0
      ensures buf == if Get(old(heap), Need(bytes)).1 == NULL then NULL else Get(old(heap), Need(bytes)).1 + HEADER
      ensures OthersSame(old(mem[..]), mem[..], old(heap), NULL)
      ensures buf == NULL <==> old(forall j :: 0 <= j < |heap.free| ==> 4 * heap.size[heap.free[j]] - 8 < bytes)
      ensures buf != NULL ==> Serves(old(heap), heap, bytes, buf - HEADER)
      ensures buf != NULL ==> bytes <= Capacity(heap, buf) && Filled(mem[..], 4 * buf, 0, Capacity(heap, buf))
    {
      ghost var h, m, n := heap, mem[..], Need(bytes);
      NeedIsLeast(bytes, n);
      GetGives(h, n);
      hide Inv, Mirror, Get, Need, OthersSame, Filled;
      buf := Bget(bytes);
      if buf != NULL {
        ghost var m1 := mem[..];
        assert bytes <= Capacity(heap, buf);
        Clear(buf);
        OthersBut(m1, mem[..], heap, buf - HEADER, NULL);
        GetPayloads(m, m1, mem[..], h, n, NULL);
      }
    }

    /** Copying between two buffers, as bgetr does. */
    method CopyPart(src: int, dst: int, n: nat)
      requires Valid() && Live(heap, src - HEADER) && Live(heap, dst - HEADER) && src != dst
      requires n <= Capacity(heap, src) && n <= Capacity(heap, dst)
      modifies mem
      ensures Valid() && OthersSame(old(mem[..]), mem[..], heap, dst - HEADER)
      ensures Copied(old(mem[..]), mem[..], 4 * src, 4 * dst, n)
    {
      ghost var m := mem[..];
      EndInBounds(m, heap, src - HEADER);
      EndInBounds(m, heap, dst - HEADER);
      PayloadsOfTwo(heap, src - HEADER, dst - HEADER);
      hide Inv, Mirror, OthersSame;
      Memcpy(mem, 4 * dst, 4 * src, n);
      PayloadStoresKeepMirror(m, mem[..], heap, dst - HEADER);
    }

    /** bgetr, once there is a new buffer: the old bytes are copied to it, and the old buffer is released. */
    method MoveInto(buf: int, nbuf: int, bytes: int)
      requires Valid() && bytes > 0 && Live(heap, buf - HEADER) && Live(heap, nbuf - HEADER) && buf != nbuf
          && bytes <= Capacity(heap, nbuf)
      modifies mem, this`heap
      ensures Valid() && heap == Rel(old(heap), buf - HEADER)
      ensures Copied(old(mem[..]), mem[..], 4 * buf, 4 * nbuf, Min(bytes, Capacity(old(heap), buf)))
      ensures OthersButSame(old(mem[..]), mem[..], old(heap), nbuf - HEADER, buf - HEADER)
    {
      ghost var m, g, a, c := mem[..], heap, buf - HEADER, nbuf - HEADER;
      hide Inv, Mirror, OthersSame, Rel, Copied, ByteAt;
      var b := buf - HEADER;
      BusyHeader(m, g, b);
      var osize := -mem[b + BSIZE];
      osize := 4 * (osize - HEADER);
      assert osize > 0;
      CopyPart(buf, nbuf, if bytes < osize then bytes else osize);
      ghost var m1 := mem[..];
      Brel(buf);
      MovedPayloads(m, m1, mem[..], g, a, c);
      CopiedBytes(m, m1, mem[..], g, a, c, Min(bytes, osize));
    }

    /** bgetr: a new buffer that begins with the old one's bytes, which is released; or the null pointer, and
        then nothing has changed. */
    method Bgetr(buf: int, bytes: int) returns (nbuf: int)
      requires Valid() && 0 < bytes <= INT_MAX - 11 && (buf == NULL || Live(heap, buf - HEADER))
      modifies mem, this`heap
      ensures Valid()
      ensures nbuf == if Get(old(heap), Need(bytes)).1 == NULL then NULL else Get(old(heap), Need(bytes)).1 + HEADER
      ensures nbuf == NULL <==> old(forall j :: 0 <= j < |heap.free| ==> 4 * heap.size[heap.free[j]] - 8 < bytes)
      ensures nbuf == NULL ==> heap == old(heap) && mem[..] == old(mem[..])
      ensures nbuf != NULL ==> Live(heap, nbuf - HEADER) && bytes <= 4 * heap.size[nbuf - HEADER] - 8
      ensures heap == Moved(old(heap), buf, Need(bytes))
      ensures nbuf != NULL && buf != NULL ==>
          Copied(old(mem[..]), mem[..], 4 * buf, 4 * nbuf, Min(bytes, Capacity(old(heap), buf)))
      ensures OthersSame(old(mem[..]), mem[..], old(heap), buf - HEADER)
    {
      hide Inv, Mirror, Get, Need, OthersSame, OthersButSame, Rel, Copied, ByteAt;
      ghost var h, m, n := heap, mem[..], Need(bytes);
      NeedIsLeast(bytes, n);
      GetGives(h, n);
      nbuf := Bget(bytes);
      OthersWeaken(m, mem[..], h, buf - HEADER);
      if nbuf == NULL {
        return;
      }
      NeedIsLeast(bytes, heap.size[nbuf - HEADER]);
      if buf == NULL {
        return;
      }
      NullNotLive(h);
      ghost var m1, g := mem[..], heap;
      RelIsExact(g, buf - HEADER);
      MoveInto(buf, nbuf, bytes);
      CopiedFromOld(m, m1, mem[..], h, buf, nbuf, Min(bytes, Capacity(h, buf)));
      GetPayloads(m, m1, mem[..], h, n, buf - HEADER);
    }
  }
}
