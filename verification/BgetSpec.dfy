/** The abstract state of the BGET heap (src/geekos/bget.c) and its operations on that state: which blocks
    tile the pools, and the order of the free list. Addresses and sizes count 4-byte words: the allocator
    rounds every size to a multiple of four bytes. */
module BgetSpec {
  import opened Seqs

  /** Words in struct bhead. */
  const HEADER := 2
  /** Words in struct qlinks, the least body of a block (SizeQ). */
  const MIN_BODY := 2
  const MIN_BLOCK := HEADER + MIN_BODY

  /** Address 0 is the null pointer; pools lie above the list head. */
  const NULL := 0
  const LIST_HEAD := 4
  const BASE := 8

  /** size: every block's start and size, header included. prev: the block that ends where a block or
      sentinel starts. home: the sentinel of a block's pool. free: the free blocks in list order. pools: each
      pool's end sentinel and its start. */
  datatype Heap = Heap(size: map<int, int>, prev: map<int, int>, home: map<int, int>, free: seq<int>,
                       pools: map<int, int>)

  const EMPTY := Heap(map[], map[], map[], [], map[])

  ghost predicate Live(h: Heap, a: int) {
    a in h.size && a !in h.free
  }

  function End(h: Heap, a: int): int
    requires a in h.size
  {
    a + h.size[a]
  }

  function Home(h: Heap, a: int): int {
    if a in h.home then h.home[a] else 0
  }

  // ---------------------------------------------------------------------------------------------
  // The invariant
  // ---------------------------------------------------------------------------------------------

  /** Blocks have room for their links, and do not overlap. */
  ghost predicate Blocks(h: Heap) {
    && (forall a {:trigger h.size[a]} :: a in h.size ==> a >= BASE && h.size[a] >= MIN_BLOCK)
    && (forall a, b {:trigger h.size[a], h.size[b]} :: a in h.size && b in h.size && a < b ==> a + h.size[a] <= b)
  }

  /** Every block is followed by a block or a sentinel, and prev records exactly these neighbours. */
  ghost predicate Linked(h: Heap) {
    && (forall a {:trigger End(h, a)} :: a in h.size ==> End(h, a) in h.size || End(h, a) in h.pools)
    && (forall a {:trigger End(h, a)} :: a in h.size ==> End(h, a) in h.prev && h.prev[End(h, a)] == a)
    && (forall n {:trigger h.prev[n]} :: n in h.prev ==> h.prev[n] in h.size && End(h, h.prev[n]) == n)
  }

  /** A pool begins with a block that no block precedes. */
  ghost predicate PoolStarts(h: Heap) {
    forall e {:trigger h.pools[e]} :: e in h.pools ==> h.pools[e] in h.size && h.pools[e] !in h.prev && h.pools[e] < e
  }

  ghost predicate PoolsApart(h: Heap) {
    forall e, f {:trigger h.pools[e], h.pools[f]} :: e in h.pools && f in h.pools && e < f ==> e + HEADER <= h.pools[f]
  }

  ghost predicate BlocksInPools(h: Heap) {
    forall a {:trigger Home(h, a)} :: a in h.size ==> Within(h, a, Home(h, a))
  }

  /** Pools are disjoint regions that begin with a block and end with a sentinel; every block is in a pool. */
  ghost predicate Pools(h: Heap) {
    PoolStarts(h) && PoolsApart(h) && BlocksInPools(h)
  }

  ghost predicate Within(h: Heap, a: int, e: int)
    requires a in h.size
  {
    e in h.pools && h.pools[e] <= a && End(h, a) <= e
  }

  ghost predicate FreeAreBlocks(h: Heap) {
    forall i {:trigger h.free[i]} :: 0 <= i < |h.free| ==> h.free[i] in h.size
  }

  /** The free list names blocks, each once, and never two that touch. */
  ghost predicate FreeList(h: Heap) {
    && Distinct(h.free)
    && FreeAreBlocks(h)
    && (forall a {:trigger End(h, a)} :: a in h.free ==> End(h, a) !in h.free)
  }

  ghost predicate Inv(h: Heap) {
    Blocks(h) && Linked(h) && Pools(h) && FreeList(h)
  }

  /** All of it except that two free blocks may touch, as they do in the middle of a release. */
  ghost predicate Shape(h: Heap) {
    Blocks(h) && Linked(h) && Pools(h) && Distinct(h.free) && FreeAreBlocks(h)
  }

  // ---------------------------------------------------------------------------------------------
  // Allocation
  // ---------------------------------------------------------------------------------------------

  /** Words taken for a request of so many bytes: at least room for the links, whole words, one header. */
  function Need(bytes: int): (n: int)
    requires bytes > 0
    ensures n >= MIN_BLOCK
  {
    HEADER + (if bytes < 4 * MIN_BODY then MIN_BODY else (bytes + 3) / 4)
  }

  /** Position in the list of the first block among the smallest that hold n words, looking at the first k;
      -1 if there is none. This is the search loop's running answer. */
  function BestOf(h: Heap, n: int, k: nat): (i: int)
    requires k <= |h.free| && FreeAreBlocks(h)
    ensures -1 <= i < k
  {
    if k == 0 then -1 else
    var i := BestOf(h, n, k - 1);
    var s := h.size[h.free[k - 1]];
    if s >= n && (i == -1 || s < h.size[h.free[i]]) then k - 1 else i
  }

  function Best(h: Heap, n: int): (i: int)
    requires FreeAreBlocks(h)
    ensures -1 <= i < |h.free|
  {
    BestOf(h, n, |h.free|)
  }

  /** The block handed out: a new one cut from the end of b if more than a minimal block would remain. */
  function Taken(h: Heap, b: int, n: int): int
    requires b in h.size
  {
    if h.size[b] - n > MIN_BLOCK then End(h, b) - n else b
  }

  /** A new block of n words is cut from the end of b. */
  function Split(h: Heap, b: int, n: int): Heap
    requires b in h.size
  {
    var a := End(h, b) - n;
    h.(size := h.size[b := h.size[b] - n][a := n],
       prev := h.prev[a := b][End(h, b) := a],
       home := h.home[a := Home(h, b)])
  }

  function Take(h: Heap, i: nat, n: int): Heap
    requires i < |h.free| && h.free[i] in h.size
  {
    var b := h.free[i];
    if h.size[b] - n > MIN_BLOCK then Split(h, b, n) else h.(free := Without(h.free, i))
  }

  /** Allocation of n words: the new heap and the block, or the same heap and the null pointer. */
  function Get(h: Heap, n: int): (Heap, int)
    requires FreeAreBlocks(h)
  {
    var i := Best(h, n);
    if i == -1 then (h, NULL) else (Take(h, i, n), Taken(h, h.free[i], n))
  }

  // ---------------------------------------------------------------------------------------------
  // Release
  // ---------------------------------------------------------------------------------------------

  function IndexOf(s: seq<int>, x: int): (i: nat)
    requires x in s
    ensures i < |s| && s[i] == x
  {
    if s[0] == x then 0 else 1 + IndexOf(s[1..], x)
  }

  function Remove(s: seq<int>, x: int): seq<int> {
    if x in s then Without(s, IndexOf(s, x)) else s
  }

  /** Block c, which starts where b ends, becomes part of b. */
  function Join(h: Heap, b: int, c: int): Heap
    requires b in h.size && c in h.size
  {
    h.(size := (h.size - {c})[b := h.size[b] + h.size[c]],
       prev := (h.prev - {c})[End(h, c) := b],
       free := Remove(h.free, c))
  }

  predicate FreeBefore(h: Heap, a: int) {
    a in h.prev && h.prev[a] in h.free
  }

  /** First half of a release: join the block before if that is free, otherwise go to the back of the list. */
  function Freed(h: Heap, a: int): Heap
    requires a in h.size && (a in h.prev ==> h.prev[a] in h.size)
  {
    if FreeBefore(h, a) then Join(h, h.prev[a], a) else h.(free := h.free + [a])
  }

  function FreedAt(h: Heap, a: int): int {
    if FreeBefore(h, a) then h.prev[a] else a
  }

  function Rel(h: Heap, a: int): Heap
    requires Inv(h) && Live(h, a)
  {
    var g, b, c := Freed(h, a), FreedAt(h, a), End(h, a);
    if c in h.free then
      assert c in g.size && b in g.size by { FreedKeepsNext(h, a); }
      Join(g, b, c)
    else g
  }

  function AddPool(h: Heap, start: int, len: int): Heap {
    var e := start + len - HEADER;
    Heap(h.size[start := len - HEADER], h.prev[e := start], h.home[start := e], h.free + [start], h.pools[e := start])
  }

  /** The region is new (it meets no pool) and has room for a block and a sentinel. */
  ghost predicate CanAdd(h: Heap, start: int, len: int) {
    && start >= BASE && len >= MIN_BLOCK + HEADER
    && forall e {:trigger h.pools[e]} :: e in h.pools ==> start + len <= h.pools[e] || e + HEADER <= start
  }

  // ---------------------------------------------------------------------------------------------
  // Lists
  // ---------------------------------------------------------------------------------------------

  lemma RemoveFacts(s: seq<int>, x: int)
    requires Distinct(s)
    ensures Distinct(Remove(s, x))
    ensures forall y :: y in Remove(s, x) <==> y in s && y != x
  {
    if x in s { WithoutFacts(s, IndexOf(s, x)); }
  }

  // ---------------------------------------------------------------------------------------------
  // Every operation keeps the invariant
  // ---------------------------------------------------------------------------------------------

  function PrevOf(h: Heap, n: int): int {
    if n in h.prev then h.prev[n] else 0
  }

  // The parts of the invariant at given addresses.

  lemma BlockAt(h: Heap, a: int, b: int)
    requires Blocks(h)
    ensures a in h.size ==> a >= BASE && h.size[a] >= MIN_BLOCK
    ensures a in h.size && b in h.size && a < b ==> End(h, a) <= b
    ensures a in h.size && b in h.size && b < a ==> End(h, b) <= a
  {
  }

  lemma PrevAt(h: Heap, n: int)
    requires Linked(h)
    ensures n in h.prev ==> h.prev[n] in h.size && End(h, h.prev[n]) == n
    ensures n in h.size ==>
        End(h, n) in h.prev && h.prev[End(h, n)] == n && (End(h, n) in h.size || End(h, n) in h.pools)
  {
  }

  lemma PoolAt(h: Heap, e: int)
    requires Pools(h)
    ensures e in h.pools ==> h.pools[e] in h.size && h.pools[e] !in h.prev && h.pools[e] < e
    ensures e in h.size ==> Within(h, e, Home(h, e)) && h.pools[Home(h, e)] < Home(h, e)
  {
  }

  lemma PoolsAt(h: Heap, e: int, f: int)
    requires Pools(h) && e in h.pools && f in h.pools && e != f
    ensures e + HEADER <= h.pools[f] || f + HEADER <= h.pools[e]
  {
  }

  /** A block is no sentinel, and the block after it lies in the same pool. */
  lemma SamePool(h: Heap, b: int, c: int)
    requires Blocks(h) && Pools(h) && b in h.size && c in h.size && End(h, b) == c
    ensures c !in h.pools && Home(h, b) == Home(h, c) && Within(h, b, Home(h, b)) && Within(h, c, Home(h, b))
  {
    BlockAt(h, b, c);
    PoolAt(h, b);
    PoolAt(h, c);
    if Home(h, b) != Home(h, c) { PoolsAt(h, Home(h, b), Home(h, c)); }
  }

  /** What joining two neighbours changes. */
  lemma JoinShape(h: Heap, b: int, c: int)
    requires b in h.size && c in h.size && End(h, b) == c && b != c && Distinct(h.free)
    ensures var g := Join(h, b, c);
            && b in g.size && c !in g.size && End(g, b) == End(h, c) && g.pools == h.pools && g.home == h.home
            && (forall a {:trigger a in g.size} :: a in g.size <==> a in h.size && a != c)
            && (forall a {:trigger g.size[a]} :: a in g.size && a != b ==> g.size[a] == h.size[a])
            && (forall n {:trigger n in g.prev} :: n in g.prev <==> (n in h.prev && n != c) || n == End(h, c))
            && (forall n {:trigger g.prev[n]} :: n in g.prev ==> g.prev[n] == if n == End(h, c) then b else h.prev[n])
            && Distinct(g.free)
            && (forall a {:trigger a in g.free} :: a in g.free <==> a in h.free && a != c)
  {
    RemoveFacts(h.free, c);
  }

  lemma JoinBlocks(h: Heap, b: int, c: int)
    requires Blocks(h) && b in h.size && c in h.size && End(h, b) == c && Distinct(h.free)
    ensures Blocks(Join(h, b, c))
  {
    hide Join, Distinct;
    JoinShape(h, b, c);
  }

  lemma JoinLinked(h: Heap, b: int, c: int)
    requires Blocks(h) && Linked(h) && b in h.size && c in h.size && End(h, b) == c && Distinct(h.free)
    requires c !in h.pools
    ensures Linked(Join(h, b, c))
  {
    hide Join, Distinct;
    JoinShape(h, b, c);
    var g := Join(h, b, c);
    var d := End(h, c);
    assert d != c && d != b;
    assert h.prev[c] == b && h.prev[d] == c;
    forall a | a in g.size && a != b ensures End(g, a) == End(h, a) != c && End(h, a) != d {
      assert h.prev[End(h, a)] == a;
    }
    forall n | n in g.prev ensures g.prev[n] in g.size && End(g, g.prev[n]) == n {
      if n != d { assert h.prev[n] in h.size && End(h, h.prev[n]) == n; }
    }
    forall a | a in g.size
      ensures (End(g, a) in g.size || End(g, a) in g.pools) && End(g, a) in g.prev && g.prev[End(g, a)] == a {
      if a == b { assert End(h, c) in h.size || End(h, c) in h.pools; }
    }
  }

  lemma JoinPoolStarts(h: Heap, b: int, c: int)
    requires Linked(h) && PoolStarts(h) && b in h.size && c in h.size && End(h, b) == c && b != c && Distinct(h.free)
    ensures PoolStarts(Join(h, b, c))
  {
    hide Join, Distinct;
    JoinShape(h, b, c);
    assert h.prev[End(h, b)] == b && h.prev[End(h, c)] == c;
  }

  lemma JoinBlocksInPools(h: Heap, b: int, c: int)
    requires Blocks(h) && Pools(h) && b in h.size && c in h.size && End(h, b) == c && Distinct(h.free)
    ensures BlocksInPools(Join(h, b, c)) && c !in h.pools
  {
    SamePool(h, b, c);
    assert h.size[b] >= MIN_BLOCK;
    hide Join, Distinct, Blocks, PoolStarts, PoolsApart;
    JoinShape(h, b, c);
    var g := Join(h, b, c);
    forall a | a in g.size ensures Within(g, a, Home(g, a)) {
      assert Within(h, a, Home(h, a));
    }
  }

  /** Joining two neighbours keeps everything except, perhaps, that free blocks do not touch. */
  lemma JoinKeeps(h: Heap, b: int, c: int)
    requires Blocks(h) && Linked(h) && Pools(h) && Distinct(h.free) && b in h.size && c in h.size && End(h, b) == c
    ensures var g := Join(h, b, c);
            && Blocks(g) && Linked(g) && Pools(g) && Distinct(g.free) && g.pools == h.pools
            && b in g.size && c !in g.size && End(g, b) == End(h, c)
            && (forall a {:trigger a in g.size} :: a in h.size && a != c ==> a in g.size)
            && (forall a {:trigger End(g, a)} :: a in g.size && a != b ==> a in h.size && End(g, a) == End(h, a))
            && (forall a {:trigger a in g.free} :: a in g.free <==> a in h.free && a != c)
  {
    assert h.size[b] >= MIN_BLOCK;
    JoinPoolStarts(h, b, c);
    JoinBlocksInPools(h, b, c);
    JoinLinked(h, b, c);
    JoinBlocks(h, b, c);
    hide Join, Distinct, Blocks, Linked, PoolStarts, BlocksInPools;
    JoinShape(h, b, c);
  }

  lemma FreedKeepsNext(h: Heap, a: int)
    requires Inv(h) && Live(h, a)
    ensures var g, b, c := Freed(h, a), FreedAt(h, a), End(h, a);
            && b in g.size && End(g, b) == c
            && (c in h.free ==> c in g.size)
  {
    assert h.prev[End(h, a)] == a;
    if FreeBefore(h, a) {
      var p := h.prev[a];
      assert End(h, p) == a;
      JoinKeeps(h, p, a);
    }
  }

  /** After the first half of a release, only the block just freed may touch another free block. */
  ghost predicate HalfFreed(h: Heap, g: Heap, b: int) {
    && Blocks(g) && Linked(g) && Pools(g) && Distinct(g.free) && b in g.free
    && (forall x {:trigger x in g.free} :: x in g.free ==> x in g.size)
    && (forall x {:trigger x in g.free} :: x in g.free <==> x in h.free || x == b)
    && (forall x {:trigger End(g, x)} :: x in g.free && x != b ==> End(g, x) !in g.free)
  }

  lemma FreedJoins(h: Heap, a: int)
    requires Inv(h) && Live(h, a) && FreeBefore(h, a)
    ensures HalfFreed(h, Freed(h, a), FreedAt(h, a))
  {
    var g, b := Freed(h, a), FreedAt(h, a);
    assert End(h, b) == a;
    JoinKeeps(h, b, a);
    hide Join, Distinct, Blocks, Pools, Linked;
    forall x | x in g.free && x != b ensures End(g, x) !in g.free {
      assert End(g, x) == End(h, x);
    }
  }

  lemma FreedAppends(h: Heap, a: int)
    requires Inv(h) && Live(h, a) && !FreeBefore(h, a)
    ensures HalfFreed(h, Freed(h, a), FreedAt(h, a))
  {
    var g := Freed(h, a);
    SameBlocks(h, g);
    hide Pools, Blocks;
    forall x | x in g.free && x != a ensures End(g, x) !in g.free {
      assert End(g, x) == End(h, x);
      assert h.prev[End(h, x)] == x;
    }
  }

  lemma SameBlocks(h: Heap, g: Heap)
    requires Blocks(h) && Linked(h) && Pools(h) && g == h.(free := g.free)
    ensures Blocks(g) && Linked(g) && Pools(g)
  {
    assert forall a {:trigger End(g, a)} :: a in g.size ==> End(g, a) == End(h, a);
    assert forall a {:trigger Home(g, a)} :: Home(g, a) == Home(h, a);
  }

  /** Coalescing leaves no two free blocks side by side. */
  lemma RelKeepsInv(h: Heap, a: int)
    requires Inv(h) && Live(h, a)
    ensures Inv(Rel(h, a))
  {
    var g, b, c := Freed(h, a), FreedAt(h, a), End(h, a);
    FreedKeepsNext(h, a);
    if FreeBefore(h, a) { FreedJoins(h, a); } else { FreedAppends(h, a); }
    if c in h.free {
      JoinKeeps(g, b, c);
      var r := Join(g, b, c);
      forall x | x in r.free ensures End(r, x) !in r.free {
        if x == b {
          assert End(h, c) !in h.free;
          assert End(r, b) == End(g, c);
        } else {
          assert End(r, x) == End(g, x);
        }
      }
    }
  }

  lemma {:induction false} BestIsBest(h: Heap, n: int, k: nat)
    requires k <= |h.free| && FreeAreBlocks(h)
    ensures var i := BestOf(h, n, k);
            && (i == -1 ==> forall j :: 0 <= j < k ==> h.size[h.free[j]] < n)
            && (i >= 0 ==> h.size[h.free[i]] >= n)
            && (i >= 0 ==> forall j :: 0 <= j < k && h.size[h.free[j]] >= n ==> h.size[h.free[i]] <= h.size[h.free[j]])
            && (i >= 0 ==> forall j :: 0 <= j < i && h.size[h.free[j]] >= n ==> h.size[h.free[i]] < h.size[h.free[j]])
    decreases k
  {
    if k > 0 { BestIsBest(h, n, k - 1); }
  }

  /** The cut is at a fresh address, inside the block. */
  lemma CutIsFresh(h: Heap, b: int, n: int)
    requires Inv(h) && b in h.size && MIN_BLOCK <= n && h.size[b] - n > MIN_BLOCK
    ensures var a, d := End(h, b) - n, End(h, b);
            && a !in h.size && a !in h.prev && a !in h.pools && a !in h.free && b < a < d && d in h.prev
                && h.prev[d] == b
            && (forall x {:trigger End(h, x)} :: x in h.size && x != b ==> End(h, x) != d && End(h, x) != a)
  {
    var a, d := End(h, b) - n, End(h, b);
    PrevAt(h, b);
    BlockAt(h, a, b);
    PrevAt(h, a);
    PoolAt(h, b);
    PoolAt(h, a);
    BlockAt(h, PrevOf(h, a), b);
    if a in h.pools && a != Home(h, b) { PoolsAt(h, a, Home(h, b)); }
    forall x | x in h.size && x != b ensures End(h, x) != d && End(h, x) != a { PrevAt(h, x); }
  }

  lemma SplitShape(h: Heap, b: int, n: int)
    requires Inv(h) && b in h.size && MIN_BLOCK <= n && h.size[b] - n > MIN_BLOCK
    ensures var g, a, d := Split(h, b, n), End(h, b) - n, End(h, b);
            && g.free == h.free && g.pools == h.pools && Home(g, a) == Home(h, b)
            && b in g.size && a in g.size && End(g, b) == a && End(g, a) == d && g.size[a] == n
                && g.size[b] == h.size[b] - n
            && (forall x {:trigger x in g.size} :: x in g.size <==> x in h.size || x == a)
            && (forall x {:trigger g.size[x]} :: x in h.size && x != b ==> g.size[x] == h.size[x])
            && (forall x {:trigger Home(g, x)} :: x in h.size ==> Home(g, x) == Home(h, x))
            && (forall m {:trigger m in g.prev} :: m in g.prev <==> m in h.prev || m == a)
            && (forall m {:trigger g.prev[m]} :: m in g.prev ==> g.prev[m] == if m == a then b else if m == d then a
                else h.prev[m])
  {
    CutIsFresh(h, b, n);
  }

  lemma SplitLinkedAt(h: Heap, b: int, n: int, x: int)
    requires Inv(h) && b in h.size && MIN_BLOCK <= n && h.size[b] - n > MIN_BLOCK
    ensures var g := Split(h, b, n);
            && (x in g.prev ==> g.prev[x] in g.size && End(g, g.prev[x]) == x)
            && (x in g.size ==>
                (End(g, x) in g.size || End(g, x) in g.pools) && End(g, x) in g.prev && g.prev[End(g, x)] == x)
  {
    CutIsFresh(h, b, n);
    SplitShape(h, b, n);
    PrevAt(h, b);
    PrevAt(h, x);
    hide Split, Inv;
  }

  lemma SplitLinked(h: Heap, b: int, n: int)
    requires Inv(h) && b in h.size && MIN_BLOCK <= n && h.size[b] - n > MIN_BLOCK
    ensures Linked(Split(h, b, n))
  {
    hide Inv, Split;
    forall x ensures var g := Split(h, b, n);
            && (x in g.prev ==> g.prev[x] in g.size && End(g, g.prev[x]) == x)
            && (x in g.size ==>
                (End(g, x) in g.size || End(g, x) in g.pools) && End(g, x) in g.prev && g.prev[End(g, x)] == x) {
      SplitLinkedAt(h, b, n, x);
    }
  }

  lemma SplitPools(h: Heap, b: int, n: int)
    requires Inv(h) && b in h.size && MIN_BLOCK <= n && h.size[b] - n > MIN_BLOCK
    ensures Pools(Split(h, b, n))
  {
    CutIsFresh(h, b, n);
    SplitShape(h, b, n);
    PoolAt(h, b);
    hide Split, Linked, FreeList, Blocks;
    var g, a := Split(h, b, n), End(h, b) - n;
    assert BlocksInPools(g) by {
      hide PoolStarts, PoolsApart;
      forall x | x in g.size ensures Within(g, x, Home(g, x)) { assert x in h.size ==> Within(h, x, Home(h, x)); }
    }
    assert PoolStarts(g) && PoolsApart(g) by { hide BlocksInPools; }
  }

  lemma SplitBlocks(h: Heap, b: int, n: int)
    requires Inv(h) && b in h.size && MIN_BLOCK <= n && h.size[b] - n > MIN_BLOCK
    ensures Blocks(Split(h, b, n))
  {
    CutIsFresh(h, b, n);
    SplitShape(h, b, n);
    hide Split, Linked, FreeList, Pools;
  }

  lemma SplitKeepsInv(h: Heap, b: int, n: int)
    requires Inv(h) && b in h.free && b in h.size && MIN_BLOCK <= n && h.size[b] - n > MIN_BLOCK
    ensures Inv(Split(h, b, n)) && Live(Split(h, b, n), End(h, b) - n)
  {
    CutIsFresh(h, b, n);
    SplitShape(h, b, n);
    SplitLinked(h, b, n);
    SplitPools(h, b, n);
    SplitBlocks(h, b, n);
    hide Split, Linked, Blocks, Pools;
    var g := Split(h, b, n);
    assert forall x {:trigger End(g, x)} :: x in h.size && x != b ==> End(g, x) == End(h, x);
  }

  lemma WholeKeepsInv(h: Heap, i: nat)
    requires Inv(h) && i < |h.free| && h.free[i] in h.size
    ensures Inv(h.(free := Without(h.free, i))) && Live(h.(free := Without(h.free, i)), h.free[i])
  {
    var g := h.(free := Without(h.free, i));
    WithoutFacts(h.free, i);
    SameBlocks(h, g);
    assert forall a {:trigger End(g, a)} :: a in g.size ==> End(g, a) == End(h, a);
  }

  /** The blocks of a new pool meet nothing. */
  lemma PoolIsFresh(h: Heap, start: int, len: int)
    requires Inv(h) && CanAdd(h, start, len)
    ensures var e := start + len - HEADER;
            && start !in h.size && start !in h.prev && start !in h.free
            && e !in h.size && e !in h.prev && e !in h.pools && e !in h.free
            && (forall x {:trigger End(h, x)} :: x in h.size ==> End(h, x) <= start || start + len <= x)
            && (forall x {:trigger End(h, x)} :: x in h.size ==> End(h, x) != start && End(h, x) != e)
  {
    var e := start + len - HEADER;
    forall x | x in h.size ensures End(h, x) <= start || start + len <= x {
      PoolAt(h, x);
      BlockAt(h, x, x);
    }
    forall x | x in h.size ensures End(h, x) != start && End(h, x) != e {
      PoolAt(h, x);
      BlockAt(h, x, x);
    }
    PrevAt(h, start);
    PrevAt(h, e);
    BlockAt(h, start, e);
    BlockAt(h, e, e);
    PoolAt(h, e);
  }

  lemma AddPoolShape(h: Heap, start: int, len: int)
    requires Inv(h) && CanAdd(h, start, len)
    ensures var g, e := AddPool(h, start, len), start + len - HEADER;
            && g.free == h.free + [start] && start in g.size && End(g, start) == e && Home(g, start) == e
            && (forall x {:trigger x in g.size} :: x in g.size <==> x in h.size || x == start)
            && (forall x {:trigger g.size[x]} :: x in h.size ==> g.size[x] == h.size[x])
            && (forall x {:trigger Home(g, x)} :: x in h.size ==> Home(g, x) == Home(h, x))
            && (forall m {:trigger m in g.prev} :: m in g.prev <==> m in h.prev || m == e)
            && (forall m {:trigger g.prev[m]} :: m in g.prev ==> g.prev[m] == if m == e then start else h.prev[m])
            && (forall f {:trigger f in g.pools} :: f in g.pools <==> f in h.pools || f == e)
            && (forall f {:trigger g.pools[f]} :: f in g.pools ==> g.pools[f] == if f == e then start else h.pools[f])
  {
    PoolIsFresh(h, start, len);
  }

  lemma AddPoolBlocks(h: Heap, start: int, len: int)
    requires Inv(h) && CanAdd(h, start, len)
    ensures Blocks(AddPool(h, start, len)) && FreeList(AddPool(h, start, len))
  {
    PoolIsFresh(h, start, len);
    AddPoolShape(h, start, len);
    hide AddPool, Linked, Pools;
    var g := AddPool(h, start, len);
    assert forall x {:trigger End(g, x)} :: x in h.size ==> End(g, x) == End(h, x);
    forall x, y | x in g.size && y in g.size && x < y ensures x + g.size[x] <= y {
      BlockAt(h, x, y);
      BlockAt(h, y, y);
      assert x in h.size ==> End(h, x) == x + g.size[x];
      assert y in h.size ==> y <= End(h, y);
    }
  }

  lemma AddPoolLinked(h: Heap, start: int, len: int)
    requires Inv(h) && CanAdd(h, start, len)
    ensures Linked(AddPool(h, start, len))
  {
    PoolIsFresh(h, start, len);
    AddPoolShape(h, start, len);
    hide AddPool, FreeList, Blocks, Pools;
    var g := AddPool(h, start, len);
    forall x | x in h.size ensures End(g, x) == End(h, x) {}
    forall m | m in g.prev ensures g.prev[m] in g.size && End(g, g.prev[m]) == m { PrevAt(h, m); }
    forall x | x in g.size
      ensures (End(g, x) in g.size || End(g, x) in g.pools) && End(g, x) in g.prev && g.prev[End(g, x)] == x {
      if x != start { PrevAt(h, x); }
    }
  }

  lemma AddPoolPools(h: Heap, start: int, len: int)
    requires Inv(h) && CanAdd(h, start, len)
    ensures Pools(AddPool(h, start, len))
  {
    PoolIsFresh(h, start, len);
    AddPoolShape(h, start, len);
    hide AddPool, Inv;
    var g := AddPool(h, start, len);
    assert BlocksInPools(g) by {
      hide PoolStarts, PoolsApart;
      forall x | x in g.size ensures Within(g, x, Home(g, x)) { assert x in h.size ==> Within(h, x, Home(h, x)); }
    }
    assert PoolStarts(g) && PoolsApart(g) by { hide BlocksInPools; }
  }

  lemma AddPoolKeepsInv(h: Heap, start: int, len: int)
    requires Inv(h) && CanAdd(h, start, len)
    ensures Inv(AddPool(h, start, len))
  {
    AddPoolBlocks(h, start, len);
    AddPoolLinked(h, start, len);
    AddPoolPools(h, start, len);
    hide AddPool, FreeList, Blocks, Linked, Pools;
  }

  // ---------------------------------------------------------------------------------------------
  // What an allocation promises
  // ---------------------------------------------------------------------------------------------

  /** Nothing is handed out exactly when no free block holds n words. Otherwise the block comes from the first
      of the smallest that do, has at least n words and at most a minimal block more, and every other live
      block stays as it was. */
  lemma GetIsBestFit(h: Heap, n: int)
    requires Inv(h) && n >= MIN_BLOCK
    ensures var (g, a) := Get(h, n);
            && Inv(g) && g.pools == h.pools
            && (a == NULL <==> forall j :: 0 <= j < |h.free| ==> h.size[h.free[j]] < n)
            && (a == NULL ==> g == h)
            && (a != NULL ==> exists i {:trigger h.free[i]} :: 0 <= i < |h.free| && Served(h, g, n, i, a))
  {
    BestIsBest(h, n, |h.free|);
    var i := Best(h, n);
    if i != -1 {
      BlockAt(h, h.free[i], h.free[i]);
      if h.size[h.free[i]] - n > MIN_BLOCK { TakePart(h, i, n); } else { TakeWhole(h, i, n); }
    }
  }

  lemma TakePart(h: Heap, i: nat, n: int)
    requires Inv(h) && i < |h.free| && MIN_BLOCK <= n && h.size[h.free[i]] - n > MIN_BLOCK && FirstSmallest(h, n, i)
    ensures Inv(Take(h, i, n)) && Served(h, Take(h, i, n), n, i, Taken(h, h.free[i], n))
  {
    var b := h.free[i];
    CutIsFresh(h, b, n);
    SplitKeepsInv(h, b, n);
    SplitShape(h, b, n);
    BlockAt(h, b, b);
    hide Split, Inv, FirstSmallest;
  }

  lemma TakeWhole(h: Heap, i: nat, n: int)
    requires Inv(h) && i < |h.free| && n <= h.size[h.free[i]] <= n + MIN_BLOCK && FirstSmallest(h, n, i)
    ensures Inv(Take(h, i, n)) && Served(h, Take(h, i, n), n, i, Taken(h, h.free[i], n))
  {
    WithoutFacts(h.free, i);
    WholeKeepsInv(h, i);
    BlockAt(h, h.free[i], h.free[i]);
    hide Inv, FirstSmallest, Distinct;
  }

  /** Free block i holds n words, none that does is smaller, and none before it in the list is as small. */
  ghost predicate FirstSmallest(h: Heap, n: int, i: nat)
    requires i < |h.free| && FreeAreBlocks(h)
  {
    && h.size[h.free[i]] >= n
    && (forall j :: 0 <= j < |h.free| && h.size[h.free[j]] >= n ==> h.size[h.free[i]] <= h.size[h.free[j]])
    && (forall j :: 0 <= j < i && h.size[h.free[j]] >= n ==> h.size[h.free[i]] < h.size[h.free[j]])
  }

  /** Heap g results from h by handing out a, the end (or all) of free block i. */
  ghost predicate Served(h: Heap, g: Heap, n: int, i: nat, a: int)
    requires i < |h.free| && FreeAreBlocks(h)
  {
    && FirstSmallest(h, n, i)
    && a >= BASE && Live(g, a) && !Live(h, a) && n <= g.size[a] <= n + MIN_BLOCK
    && h.free[i] <= a && End(g, a) == End(h, h.free[i])
    && (forall x {:trigger Live(h, x)} :: Live(h, x) ==> Live(g, x) && g.size[x] == h.size[x])
    && (forall x {:trigger Live(g, x)} :: Live(g, x) && x != a ==> Live(h, x))
  }

  /** The blocks that hold so many bytes beside their 8-byte header, and are no smaller than 16 bytes, are those of at
      least so many words. */
  lemma NeedIsLeast(bytes: int, n: int)
    requires bytes > 0
    ensures Need(bytes) >= MIN_BLOCK
    ensures n >= Need(bytes) <==> 4 * n >= 16 && 4 * n - 8 >= bytes
  {
  }

  /** What is handed out of free block i: its last n words, or all of it. */
  lemma TakenSize(h: Heap, i: nat, n: int)
    requires Inv(h) && i < |h.free| && MIN_BLOCK <= n <= h.size[h.free[i]]
    ensures var g, a, b := Take(h, i, n), Taken(h, h.free[i], n), h.free[i];
            a in g.size && End(g, a) == End(h, b) && Live(g, a) && !Live(h, a)
            && if h.size[b] - n > MIN_BLOCK then a != b && g.size[a] == n else a == b && g.size[a] == h.size[b]
  {
    hide Inv, Split;
    var b := h.free[i];
    InvParts(h);
    if h.size[b] - n > MIN_BLOCK {
      CutIsFresh(h, b, n);
      SplitShape(h, b, n);
    } else {
      WithoutFacts(h.free, i);
    }
  }

  lemma InvParts(h: Heap)
    requires Inv(h)
    ensures FreeAreBlocks(h) && Distinct(h.free)
    ensures forall j :: 0 <= j < |h.free| ==> h.free[j] in h.size && h.size[h.free[j]] >= MIN_BLOCK
  {
    forall j | 0 <= j < |h.free| ensures h.free[j] in h.size && h.size[h.free[j]] >= MIN_BLOCK {
      BlockAt(h, h.free[j], h.free[j]);
    }
  }

  /** In bytes: free block i holds the request, it is the first of the smallest that do, and block a is its end. All of
      it goes if at most 16 bytes would remain beside a block of the least size for the request, which is a multiple of
      4 bytes, and 8 at least, beside the header; otherwise a is of that size. */
  ghost predicate ServedBytes(h: Heap, g: Heap, bytes: int, i: nat, a: int)
    requires FreeAreBlocks(h)
  {
    && i < |h.free|
    && var b := h.free[i];
       && 4 * h.size[b] - 8 >= bytes
       && (forall j :: 0 <= j < |h.free| && 4 * h.size[h.free[j]] - 8 >= bytes ==> h.size[b] <= h.size[h.free[j]])
       && (forall j :: 0 <= j < i && 4 * h.size[h.free[j]] - 8 >= bytes ==> h.size[b] < h.size[h.free[j]])
       && Live(g, a) && !Live(h, a) && End(g, a) == End(h, b)
       && bytes <= 4 * g.size[a] - 8
       && (a == b <==> 4 * h.size[b] - 24 <= 8 || 4 * h.size[b] - 24 < bytes + 4)
       && (a != b ==> 4 * g.size[a] - 8 == 8 || 8 < 4 * g.size[a] - 8 < bytes + 4)
  }

  ghost predicate Serves(h: Heap, g: Heap, bytes: int, a: int) {
    FreeAreBlocks(h) && exists i :: ServedBytes(h, g, bytes, i, a)
  }

  lemma AboveBase(h: Heap, b: int, g: Heap, a: int)
    requires Inv(h) && b in h.size && a in g.size && End(g, a) == End(h, b) && g.size[a] <= h.size[b]
    ensures a != NULL
  {
  }

  /** A request of so many bytes is refused exactly if no free block has room for them. */
  lemma BgetServes(h: Heap, bytes: int)
    requires Inv(h) && bytes > 0
    ensures var (g, a) := Get(h, Need(bytes));
            && (a == NULL <==> forall j :: 0 <= j < |h.free| ==> 4 * h.size[h.free[j]] - 8 < bytes)
            && (a != NULL ==> Serves(h, g, bytes, a))
  {
    hide Inv, Split, Need, BestOf;
    var n := Need(bytes);
    NeedIsLeast(bytes, n);
    InvParts(h);
    BestIsBest(h, n, |h.free|);
    var (g, a) := Get(h, n);
    forall j | 0 <= j < |h.free| ensures h.size[h.free[j]] < n <==> 4 * h.size[h.free[j]] - 8 < bytes {
      NeedIsLeast(bytes, h.size[h.free[j]]);
    }
    var i := Best(h, n);
    if i != -1 {
      TakenSize(h, i, n);
      AboveBase(h, h.free[i], Take(h, i, n), a);
      NeedIsLeast(bytes, n - 1);
      assert ServedBytes(h, g, bytes, i, a);
    }
  }

  // ---------------------------------------------------------------------------------------------
  // What a release promises
  // ---------------------------------------------------------------------------------------------

  /** Exactly the block named is given up: every other live block stays as it was. */
  lemma RelIsExact(h: Heap, a: int)
    requires Inv(h) && Live(h, a)
    ensures var g := Rel(h, a);
            && Inv(g) && g.pools == h.pools && !Live(g, a)
            && (forall x {:trigger Live(h, x)} :: Live(h, x) && x != a ==> Live(g, x) && g.size[x] == h.size[x])
            && (forall x {:trigger Live(g, x)} :: Live(g, x) ==> Live(h, x))
  {
    RelKeepsInv(h, a);
    var g, b, c := Freed(h, a), FreedAt(h, a), End(h, a);
    FreedKeepsNext(h, a);
    if FreeBefore(h, a) { FreedJoins(h, a); FreedSizes(h, a); } else { FreedAppends(h, a); }
    if c in h.free {
      BlockAt(g, b, b);
      JoinShape(g, b, c);
      hide Join;
    }
  }

  /** What stays free keeps its place among the others; the block given up, unless it joins the one before, goes to the
      back. So of equal free blocks the one that has been free longest is handed out first. */
  lemma RelKeepsOrder(h: Heap, a: int, x: int, y: int)
    requires Inv(h) && Live(h, a)
    ensures var g := Rel(h, a);
            && (x in h.free && y in h.free && x in g.free && y in g.free ==>
                  (Before(g.free, x, y) <==> Before(h.free, x, y)))
            && (x in h.free && x in g.free && a in g.free ==> Before(g.free, x, a))
  {
    RelKeepsInv(h, a);
    var g, b, c := Freed(h, a), FreedAt(h, a), End(h, a);
    FreedKeepsNext(h, a);
    if FreeBefore(h, a) {
      FreedJoins(h, a);
      RemoveOrder(h.free, a, x, y);
    } else {
      FreedAppends(h, a);
      AppendOrder(h.free, a, x, y);
      AppendOrder(h.free, a, x, a);
    }
    if c in h.free {
      RemoveOrder(g.free, c, x, y);
      RemoveOrder(g.free, c, x, a);
      RemoveFacts(g.free, c);
    }
  }

  lemma RemoveOrder(s: seq<int>, c: int, x: int, y: int)
    requires Distinct(s)
    ensures Before(Remove(s, c), x, y) <==> Before(s, x, y) && x != c && y != c
  {
    if c in s { WithoutOrder(s, IndexOf(s, c), x, y); }
  }

  lemma FreedSizes(h: Heap, a: int)
    requires Inv(h) && Live(h, a) && FreeBefore(h, a)
    ensures var g, b := Freed(h, a), FreedAt(h, a);
            && g.pools == h.pools
            && (forall x {:trigger x in g.size} :: x in g.size <==> x in h.size && x != a)
            && (forall x {:trigger g.size[x]} :: x in g.size && x != b ==> g.size[x] == h.size[x])
  {
    PrevAt(h, a);
    BlockAt(h, h.prev[a], a);
    JoinShape(h, h.prev[a], a);
  }

  lemma ServedGives(h: Heap, g: Heap, n: int, i: nat, a: int)
    requires i < |h.free| && FreeAreBlocks(h) && Served(h, g, n, i, a)
    ensures a >= BASE && Live(g, a) && !Live(h, a) && g.size[a] >= n
    ensures forall x {:trigger Live(h, x)} :: Live(h, x) ==> Live(g, x) && g.size[x] == h.size[x]
  {
  }

  /** What an allocation gives, without how it was chosen. */
  lemma GetGives(h: Heap, n: int)
    requires Inv(h) && n >= MIN_BLOCK
    ensures var (g, a) := Get(h, n);
            && Inv(g) && (a == NULL ==> g == h)
            && (a != NULL ==> a >= BASE && Live(g, a) && !Live(h, a) && g.size[a] >= n)
            && (forall x {:trigger Live(h, x)} :: Live(h, x) ==> Live(g, x) && g.size[x] == h.size[x])
  {
    GetIsBestFit(h, n);
    var (g, a) := Get(h, n);
    if a != NULL {
      assert FreeAreBlocks(h);
      var i :| 0 <= i < |h.free| && Served(h, g, n, i, a);
      ServedGives(h, g, n, i, a);
    }
  }

  /** Reallocation to n words of the buffer whose payload starts at buf. */
  function Moved(h: Heap, buf: int, n: int): Heap
    requires Inv(h) && n >= MIN_BLOCK && (buf == NULL || Live(h, buf - HEADER))
  {
    var (g, a) := Get(h, n);
    if a == NULL || buf == NULL then g else GetGives(h, n); Rel(g, buf - HEADER)
  }

  // ---------------------------------------------------------------------------------------------
  // Tiling
  // ---------------------------------------------------------------------------------------------

  /** Payloads of different blocks are apart, and no payload meets a header or a sentinel. */
  lemma PayloadsApart(h: Heap, a: int, x: int)
    requires Shape(h) && a in h.size && (x in h.size || x in h.pools)
    ensures x + HEADER <= a + HEADER || End(h, a) <= x
    ensures x in h.size && x != a ==> End(h, x) <= a || End(h, a) <= x
  {
    BlockAt(h, a, x);
    PoolAt(h, a);
    PoolAt(h, x);
    if x in h.pools && x != Home(h, a) { PoolsAt(h, x, Home(h, a)); }
  }

  /** The blocks met on the way from a to the sentinel e. */
  function Walk(h: Heap, a: int, e: int): seq<int>
    requires Inv(h) && (a == e || (a in h.size && Within(h, a, e)))
    decreases e - a
  {
    if a == e then [] else
    assert h.size[a] >= MIN_BLOCK && (End(h, a) == e || (End(h, a) in h.size && Within(h, End(h, a), e))) by {
      NextWithin(h, a, e);
    }
    [a] + Walk(h, End(h, a), e)
  }

  lemma NextWithin(h: Heap, a: int, e: int)
    requires Inv(h) && a in h.size && Within(h, a, e)
    ensures h.size[a] >= MIN_BLOCK && Home(h, a) == e
    ensures End(h, a) == e || (End(h, a) in h.size && Within(h, End(h, a), e))
  {
    BlockAt(h, a, a);
    PrevAt(h, a);
    PoolAt(h, a);
    PoolAt(h, e);
    if Home(h, a) != e { PoolsAt(h, Home(h, a), e); }
    var c := End(h, a);
    if c in h.size {
      SamePool(h, a, c);
    } else {
      PoolAt(h, c);
      if c != e { PoolsAt(h, c, e); }
    }
  }

  function Total(h: Heap, s: seq<int>): int {
    if s == [] then 0 else (if s[0] in h.size then h.size[s[0]] else 0) + Total(h, s[1..])
  }

  /** Consecutive blocks from a up to the sentinel e, whose sizes add up to the distance covered. */
  ghost predicate EndToEnd(h: Heap, s: seq<int>, a: int, e: int) {
    && (forall x :: x in s ==> x in h.size)
    && Total(h, s) == e - a
    && (forall k {:trigger s[k]} :: 0 <= k < |s| ==> End(h, s[k]) == if k + 1 < |s| then s[k + 1] else e)
    && (|s| > 0 ==> s[0] == a)
  }

  lemma {:induction false} WalkEndToEnd(h: Heap, a: int, e: int)
    requires Inv(h) && (a == e || (a in h.size && Within(h, a, e)))
    ensures EndToEnd(h, Walk(h, a, e), a, e)
    decreases e - a
  {
    hide Blocks, Linked, Pools, FreeList;
    if a != e {
      NextWithin(h, a, e);
      var c := End(h, a);
      WalkEndToEnd(h, c, e);
      var s, t := Walk(h, a, e), Walk(h, c, e);
      assert s == [a] + t && s[1..] == t;
      assert t == [] <==> c == e;
      forall k | 0 <= k < |s| ensures End(h, s[k]) == if k + 1 < |s| then s[k + 1] else e {
        if k > 0 { assert s[k] == t[k - 1]; }
      }
    }
  }

  /** Every block of the pool from a on is met. */
  lemma {:induction false} WalkMeetsAll(h: Heap, a: int, e: int, x: int)
    requires Inv(h) && (a == e || (a in h.size && Within(h, a, e))) && x in h.size && a <= x && Home(h, x) == e
    ensures x in Walk(h, a, e)
    decreases e - a
  {
    PoolAt(h, x);
    BlockAt(h, a, x);
    hide Blocks, Linked, Pools, FreeList;
    if a != e {
      NextWithin(h, a, e);
      if x != a { WalkMeetsAll(h, End(h, a), e, x); }
    }
  }

  /** The words of a pool are its blocks and its sentinel, no more and no less. */
  lemma PoolTiled(h: Heap, e: int)
    requires Inv(h) && e in h.pools
    ensures Within(h, h.pools[e], e)
    ensures EndToEnd(h, Walk(h, h.pools[e], e), h.pools[e], e)
    ensures forall x :: x in h.size && Home(h, x) == e ==> x in Walk(h, h.pools[e], e)
  {
    var p := h.pools[e];
    PoolAt(h, e);
    PoolAt(h, p);
    BlockAt(h, p, p);
    if Home(h, p) != e { PoolsAt(h, Home(h, p), e); }
    WalkEndToEnd(h, p, e);
    forall x | x in h.size && Home(h, x) == e ensures x in Walk(h, p, e) {
      PoolAt(h, x);
      WalkMeetsAll(h, p, e, x);
    }
  }

  /** With every buffer released, each pool is one free block again, all but the sentinel, and the free list
      holds these blocks and no others. */
  lemma AllReleased(h: Heap)
    requires Inv(h) && forall a :: a in h.size ==> a in h.free
    ensures forall e :: e in h.pools ==> h.size[h.pools[e]] == e - h.pools[e]
    ensures forall a :: a in h.free <==> a in h.pools.Values
  {
    forall e | e in h.pools ensures h.size[h.pools[e]] == e - h.pools[e] {
      PoolTiled(h, e);
      NextWithin(h, h.pools[e], e);
    }
    forall a | a in h.free ensures a in h.pools.Values {
      FreeInSize(h, a);
      PoolAt(h, a);
      var e := Home(h, a);
      PoolAt(h, e);
      BlockAt(h, a, h.pools[e]);
    }
    forall a | a in h.pools.Values ensures a in h.free {
      var e :| e in h.pools && h.pools[e] == a;
      PoolAt(h, e);
    }
  }

  lemma FreeInSize(h: Heap, a: int)
    requires FreeAreBlocks(h) && a in h.free
    ensures a in h.size
  {
  }

  // ---------------------------------------------------------------------------------------------
  // Runs
  // ---------------------------------------------------------------------------------------------

  datatype Op = Pool(start: int, len: int) | Alloc(bytes: int) | Release(block: int) | Realloc(buf: int, bytes: int)

  ghost predicate Legal(h: Heap, op: Op) {
    match op
    case Pool(start, len) => CanAdd(h, start, len)
    case Alloc(bytes) => bytes > 0
    case Release(a) => Live(h, a)
    case Realloc(buf, bytes) => bytes > 0 && (buf == NULL || Live(h, buf - HEADER))
  }

  ghost function Step(h: Heap, op: Op): Heap
    requires Inv(h) && Legal(h, op)
  {
    match op
    case Pool(start, len) => AddPool(h, start, len)
    case Alloc(bytes) => Get(h, Need(bytes)).0
    case Release(a) => Rel(h, a)
    case Realloc(buf, bytes) => Moved(h, buf, Need(bytes))
  }

  lemma MovedKeepsInv(h: Heap, buf: int, n: int)
    requires Inv(h) && n >= MIN_BLOCK && (buf == NULL || Live(h, buf - HEADER))
    ensures Inv(Moved(h, buf, n))
  {
    GetGives(h, n);
    if Get(h, n).1 != NULL && buf != NULL { RelKeepsInv(Get(h, n).0, buf - HEADER); }
    hide Inv, Get, Rel;
  }

  lemma StepKeepsInv(h: Heap, op: Op)
    requires Inv(h) && Legal(h, op)
    ensures Inv(Step(h, op))
  {
    hide Inv, Get, Rel, AddPool, Moved, CanAdd;
    match op
    case Pool(start, len) => AddPoolKeepsInv(h, start, len);
    case Alloc(bytes) => GetGives(h, Need(bytes));
    case Release(a) => RelKeepsInv(h, a);
    case Realloc(buf, bytes) =>
      MovedKeepsInv(h, buf, Need(bytes));
  }

  /** The heaps a client can bring about, one legal call after another. */
  ghost predicate Reaches(h: Heap, ops: seq<Op>, g: Heap)
    requires Inv(h)
    decreases ops
  {
    if ops == [] then g == h
    else Legal(h, ops[0]) && (StepKeepsInv(h, ops[0]); Reaches(Step(h, ops[0]), ops[1..], g))
  }

  lemma {:induction false} RunKeepsInv(h: Heap, ops: seq<Op>, g: Heap)
    requires Inv(h) && Reaches(h, ops, g)
    ensures Inv(g)
    decreases ops
  {
    if ops != [] {
      StepKeepsInv(h, ops[0]);
      RunKeepsInv(Step(h, ops[0]), ops[1..], g);
    }
  }

  /** All of a new pool but two headers can be had at once: it serves a request exactly if that is no more. */
  lemma PoolServes(start: int, len: int, bytes: int)
    requires start >= BASE && 4 * len >= 24 && bytes > 0
    ensures Get(AddPool(EMPTY, start, len), Need(bytes)).1 == NULL <==> bytes > 4 * len - 16
  {
    hide Get, Need;
    EmptyHeap();
    AddPoolKeepsInv(EMPTY, start, len);
    var g := AddPool(EMPTY, start, len);
    assert g.free == [start] && g.size[start] == len - 2 && g.free[0] == start;
    BgetServes(g, bytes);
  }

  ghost predicate Tiled(h: Heap)
    requires Inv(h)
  {
    forall e {:trigger h.pools[e]} :: e in h.pools ==>
      Within(h, h.pools[e], e) && Total(h, Walk(h, h.pools[e], e)) == e - h.pools[e]
  }

  lemma InvTiles(h: Heap)
    requires Inv(h)
    ensures Tiled(h)
  {
    forall e | e in h.pools
      ensures h.pools[e] in h.size && Within(h, h.pools[e], e) && Total(h, Walk(h, h.pools[e], e)) == e - h.pools[e] {
      PoolTiled(h, e);
    }
  }

  /** From an empty heap, whatever the calls: the pools stay tiled, and whenever nothing is live each pool is
      one free block again. */
  lemma EveryRun(ops: seq<Op>, g: Heap)
    requires (EmptyHeap(); Reaches(EMPTY, ops, g))
    ensures Inv(g) && Tiled(g)
    ensures (forall a :: !Live(g, a)) ==> forall e :: e in g.pools ==> g.size[g.pools[e]] == e - g.pools[e]
  {
    RunKeepsInv(EMPTY, ops, g);
    InvTiles(g);
    if forall a :: !Live(g, a) {
      forall a | a in g.size ensures a in g.free { assert !Live(g, a); }
      AllReleased(g);
    }
  }

  lemma EmptyHeap()
    ensures Inv(EMPTY)
  {
  }
}
