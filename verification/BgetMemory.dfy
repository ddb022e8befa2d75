/** How the abstract heap of BgetSpec is laid out in memory: the two header words of every block and sentinel,
    and the circular, doubly linked free list threaded through the bodies of the free blocks. */
module BgetMemory {
  import opened Seqs
  import opened BgetSpec

  /** Field offsets of struct bfhead. */
  const PREVFREE := 0
  const BSIZE := 1
  const FLINK := 2
  const BLINK := 3

  /** The most negative bufsize, the size field of an end sentinel. */
  const ESENT := -0x8000_0000

  /** Header-bearing addresses. */
  ghost predicate Marked(h: Heap, n: int) {
    n in h.size || n in h.pools
  }

  /** The size field: negative while the block is in use. */
  function SizeField(h: Heap, n: int): int {
    if n !in h.size then ESENT else if n in h.free then h.size[n] else -h.size[n]
  }

  /** The back pointer: the size of the block before, while that is free. */
  function PrevField(h: Heap, n: int): int {
    if n in h.prev && h.prev[n] in h.free && h.prev[n] in h.size then h.size[h.prev[n]] else 0
  }

  ghost predicate InBounds(m: seq<int>, h: Heap) {
    |m| >= BASE && forall e {:trigger h.pools[e]} :: e in h.pools ==> e + HEADER <= |m|
  }

  ghost predicate HeadersAt(m: seq<int>, h: Heap, n: int) {
    0 <= n && n + BSIZE < |m| && m[n + PREVFREE] == PrevField(h, n) && m[n + BSIZE] == SizeField(h, n)
  }

  ghost predicate Headers(m: seq<int>, h: Heap) {
    forall n {:trigger HeadersAt(m, h, n)} :: Marked(h, n) ==> HeadersAt(m, h, n)
  }

  /** The k-th node of the circle: the list head, the free blocks in order, the list head again. */
  function Node(free: seq<int>, k: int): int {
    if 1 <= k <= |free| then free[k - 1] else LIST_HEAD
  }

  ghost predicate LinkedAt(m: seq<int>, free: seq<int>, k: int) {
    var p, q := Node(free, k), Node(free, k + 1);
    && 0 <= p && p + BLINK < |m| && 0 <= q && q + BLINK < |m|
    && m[p + FLINK] == q && m[q + BLINK] == p
  }

  ghost predicate Ring(m: seq<int>, free: seq<int>) {
    forall k {:trigger LinkedAt(m, free, k)} :: 0 <= k <= |free| ==> LinkedAt(m, free, k)
  }

  /** Memory m holds heap h. */
  ghost predicate Mirror(m: seq<int>, h: Heap) {
    InBounds(m, h) && Headers(m, h) && Ring(m, h.free)
  }

  /** The words between the headers of live blocks, which belong to clients, agree. */
  ghost predicate SamePayload(m: seq<int>, m': seq<int>, h: Heap, a: int) {
    && |m| == |m'|
    && (a in h.size ==>
          && 0 <= a && End(h, a) <= |m|
          && forall i {:trigger m'[i]} :: a + HEADER <= i < End(h, a) ==> m'[i] == m[i])
  }

  // ---------------------------------------------------------------------------------------------
  // Which words are which
  // ---------------------------------------------------------------------------------------------

  /** List nodes are at least a header and two links apart. */
  lemma NodesApart(h: Heap, j: int, k: int)
    requires Shape(h) && 0 <= j <= |h.free| && 0 <= k <= |h.free|
    ensures j != k ==> Node(h.free, j) + MIN_BLOCK <= Node(h.free, k) || Node(h.free, k) + MIN_BLOCK <= Node(h.free, j)
    ensures Node(h.free, j) == LIST_HEAD
        || (Node(h.free, j) in h.size && Node(h.free, j) in h.free && Node(h.free, j) >= BASE)
  {
    var p, q := Node(h.free, j), Node(h.free, k);
    BlockAt(h, p, q);
    BlockAt(h, q, p);
  }

  /** The link words of a list node lie outside every header. */
  lemma LinksNotHeaders(h: Heap, k: int, n: int)
    requires Shape(h) && 0 <= k <= |h.free| && Marked(h, n)
    ensures var p := Node(h.free, k); n + BSIZE < p + FLINK || p + BLINK < n
    ensures n >= BASE
  {
    var p := Node(h.free, k);
    NodesApart(h, k, k);
    MarkedAboveBase(h, n);
    BlockAt(h, p, p);
    if p in h.size { PayloadsApart(h, p, n); }
  }

  lemma MarkedAboveBase(h: Heap, n: int)
    requires Shape(h) && Marked(h, n)
    ensures n >= BASE
  {
    BlockAt(h, n, n);
    PoolAt(h, n);
    if n in h.pools { BlockAt(h, h.pools[n], n); }
  }

  /** Headers of different blocks or sentinels do not share words. */
  lemma HeadersApart(h: Heap, n: int, x: int)
    requires Shape(h) && Marked(h, n) && Marked(h, x) && n != x
    ensures n + HEADER <= x || x + HEADER <= n
  {
    BlockAt(h, n, x);
    PoolAt(h, n);
    PoolAt(h, x);
    if n in h.size { PayloadsApart(h, n, x); }
    if x in h.size { PayloadsApart(h, x, n); }
    if n in h.pools && x in h.pools { PoolsAt(h, n, x); }
  }

  // ---------------------------------------------------------------------------------------------
  // The circular list
  // ---------------------------------------------------------------------------------------------

  lemma RingAt(m: seq<int>, free: seq<int>, k: int)
    requires Ring(m, free) && 0 <= k <= |free|
    ensures LinkedAt(m, free, k)
  {
  }

  /** Only link words matter to the list. */
  lemma RingFrame(m: seq<int>, m': seq<int>, free: seq<int>)
    requires Ring(m, free) && |m| == |m'|
    requires forall k {:trigger Node(free, k)} :: 0 <= k <= |free| ==>
               (var p := Node(free, k);
                0 <= p && p + BLINK < |m| && m'[p + FLINK] == m[p + FLINK] && m'[p + BLINK] == m[p + BLINK])
    ensures Ring(m', free)
  {
    forall k | 0 <= k <= |free| ensures LinkedAt(m', free, k) {
      RingAt(m, free, k);
      assert Node(free, |free| + 1) == Node(free, 0);
    }
  }

  /** Unlinking node i + 1, the free block i, closes the circle over it. */
  lemma RingUnlink(m: seq<int>, m': seq<int>, h: Heap, i: nat)
    requires Shape(h) && Ring(m, h.free) && i < |h.free|
    requires var p, q := Node(h.free, i), Node(h.free, i + 2);
             && 0 <= p && p + BLINK < |m| && 0 <= q && q + BLINK < |m|
             && m' == m[p + FLINK := q][q + BLINK := p]
    ensures Ring(m', Without(h.free, i))
  {
    hide Shape;
    var f, g := h.free, Without(h.free, i);
    forall k | 0 <= k <= |g| ensures LinkedAt(m', g, k) {
      var j := if k <= i then k else k + 1;
      assert Node(g, k) == Node(f, j);
      assert Node(g, k + 1) == Node(f, if k + 1 <= i then k + 1 else k + 2);
      RingAt(m, f, j);
      UnlinkedApart(h, i, j, if k + 1 <= i then k + 1 else k + 2);
    }
  }

  lemma UnlinkedApart(h: Heap, i: nat, j: nat, l: nat)
    requires Shape(h) && i < |h.free| && j <= |h.free| && 0 < l <= |h.free| + 1
    ensures var p, q := Node(h.free, i), Node(h.free, i + 2);
            && (Node(h.free, j) == p <==> j == i)
            && (Node(h.free, l) == q <==> l == i + 2)
            && Node(h.free, j) + FLINK != q + BLINK && Node(h.free, l) + BLINK != p + FLINK
  {
    var z := if i + 2 == |h.free| + 1 then 0 else i + 2;
    var y := if l == |h.free| + 1 then 0 else l;
    NodesApart(h, j, i);
    NodesApart(h, y, z);
    NodesApart(h, j, z);
    NodesApart(h, y, i);
  }

  /** A free block and its two neighbours on the list point at each other. */
  lemma Neighbours(m: seq<int>, h: Heap, i: nat)
    requires Shape(h) && Ring(m, h.free) && i < |h.free|
    ensures var c, p, q := h.free[i], Node(h.free, i), Node(h.free, i + 2);
            && 0 <= p && p + BLINK < |m| && 0 <= q && q + BLINK < |m| && BASE <= c && c + BLINK < |m|
            && m[c + BLINK] == p && m[c + FLINK] == q && m[p + FLINK] == c && m[q + BLINK] == c
            && p + FLINK != c + FLINK && p + FLINK != c + BLINK && q + BLINK != c + BLINK
  {
    RingAt(m, h.free, i);
    RingAt(m, h.free, i + 1);
    NodesApart(h, i, i + 1);
    NodesApart(h, i + 1, i + 1);
    UnlinkedApart(h, i, i + 1, i + 1);
  }

  /** Linking block b in before the list head puts it at the back. */
  lemma RingAppend(m: seq<int>, m': seq<int>, h: Heap, b: int)
    requires Shape(h) && Ring(m, h.free) && b >= BASE && b + BLINK < |m|
    requires forall k {:trigger Node(h.free, k)} :: 0 <= k <= |h.free| ==>
               (var p := Node(h.free, k); p + MIN_BLOCK <= b || b + MIN_BLOCK <= p)
    requires var last := Node(h.free, |h.free|);
             && 0 <= last && last + BLINK < |m|
             && m' == m[b + FLINK := LIST_HEAD][b + BLINK := last][LIST_HEAD + BLINK := b][last + FLINK := b]
    ensures Ring(m', h.free + [b])
  {
    hide Shape;
    var f, g := h.free, h.free + [b];
    forall k | 0 <= k <= |g| ensures LinkedAt(m', g, k) {
      assert Node(g, |g| + 1) == LIST_HEAD && Node(g, |g|) == b;
      if k < |f| {
        assert Node(g, k) == Node(f, k) && Node(g, k + 1) == Node(f, k + 1);
        RingAt(m, f, k);
        NodesApart(h, k, |f|);
        NodesApart(h, k + 1, 0);
        NodesApart(h, k + 1, |f|);
        NodesApart(h, k, 0);
      } else if k == |f| {
        assert Node(g, k) == Node(f, k);
        NodesApart(h, |f|, 0);
      }
    }
  }

  // ---------------------------------------------------------------------------------------------
  // The effect of each operation on memory
  // ---------------------------------------------------------------------------------------------

  /** Blocks lie in their pools, and pools in memory. */
  lemma EndInBounds(m: seq<int>, h: Heap, a: int)
    requires Shape(h) && InBounds(m, h) && a in h.size
    ensures BASE <= a && a + MIN_BLOCK <= End(h, a) && End(h, a) + HEADER <= |m|
    ensures Marked(h, a) && Marked(h, End(h, a)) && End(h, a) in h.prev && h.prev[End(h, a)] == a
  {
    PoolAt(h, a);
    BlockAt(h, a, a);
    PrevAt(h, a);
    var e := Home(h, a);
    assert e in h.pools && h.pools[e] == h.pools[e];
  }

  lemma HeaderOf(m: seq<int>, h: Heap, n: int)
    requires Headers(m, h)
    ensures Marked(h, n) ==> HeadersAt(m, h, n)
  {
  }

  lemma HeadersApart2(h: Heap, n: int, x: int)
    requires Shape(h) && Marked(h, n) && Marked(h, x)
    ensures n != x ==> n + HEADER <= x || x + HEADER <= n
  {
    if n != x { HeadersApart(h, n, x); }
  }

  lemma PoolNotBlock(h: Heap, x: int)
    requires Shape(h)
    ensures !(x in h.size && x in h.pools)
  {
    PoolAt(h, x);
    BlockAt(h, x, x);
    if x in h.pools && x in h.size && Home(h, x) != x { PoolsAt(h, x, Home(h, x)); }
  }

  /** Stores that stay inside headers do not touch the list. */
  lemma HeaderStoresKeepRing(m: seq<int>, m': seq<int>, h: Heap)
    requires Shape(h) && Ring(m, h.free) && |m| == |m'|
    requires forall i {:trigger m'[i]} :: 0 <= i < |m| && m'[i] != m[i] ==> Marked(h, i) || Marked(h, i - BSIZE)
    ensures Ring(m', h.free)
  {
    hide Shape, Ring, Marked;
    forall k | 0 <= k <= |h.free|
      ensures var p := Node(h.free, k);
          0 <= p && p + BLINK < |m| && m'[p + FLINK] == m[p + FLINK] && m'[p + BLINK] == m[p + BLINK] {
      RingAt(m, h.free, k);
      var p := Node(h.free, k);
      LinkNotMarked(h, k, p + FLINK);
      LinkNotMarked(h, k, p + BLINK);
    }
    RingFrame(m, m', h.free);
  }

  lemma LinkNotMarked(h: Heap, k: int, i: int)
    requires Shape(h) && 0 <= k <= |h.free| && Node(h.free, k) + FLINK <= i <= Node(h.free, k) + BLINK
    ensures !Marked(h, i) && !Marked(h, i - BSIZE)
  {
    if Marked(h, i) { LinksNotHeaders(h, k, i); }
    if Marked(h, i - BSIZE) { LinksNotHeaders(h, k, i - BSIZE); }
  }

  // Cutting a block from the end of a free one.

  ghost predicate CanCut(h: Heap, b: int, n: int) {
    b in h.free && b in h.size && MIN_BLOCK <= n && h.size[b] - n > MIN_BLOCK
  }

  /** The four stores: sizes of the two parts, and the back pointers behind each. */
  ghost predicate SplitStores(m: seq<int>, m': seq<int>, h: Heap, b: int, n: int) {
    && CanCut(h, b, n)
    && var a, d := End(h, b) - n, End(h, b);
       && 0 <= b && d < |m|
       && m' == m[b + BSIZE := h.size[b] - n][a + PREVFREE := h.size[b] - n][a + BSIZE := -n][d + PREVFREE := 0]
  }

  lemma SplitFields(h: Heap, b: int, n: int, x: int)
    requires Inv(h) && CanCut(h, b, n) && Marked(Split(h, b, n), x)
    ensures var g, a, d := Split(h, b, n), End(h, b) - n, End(h, b);
            && (x != a ==> Marked(h, x))
            && PrevField(g, x) == (if x == a then h.size[b] - n else if x == d then 0 else PrevField(h, x))
            && SizeField(g, x) == (if x == a then -n else if x == b then h.size[b] - n else SizeField(h, x))
  {
    CutIsFresh(h, b, n);
    SplitShape(h, b, n);
    PrevAt(h, b);
    PrevAt(h, x);
    hide Inv, Split;
  }

  lemma ApartFromCut(h: Heap, b: int, n: int, x: int)
    requires Inv(h) && CanCut(h, b, n) && Marked(h, x)
    ensures var a, d := End(h, b) - n, End(h, b);
            && (x != b ==> x + HEADER <= b || d <= x)
            && (x != d ==> x + HEADER <= d || d + HEADER <= x)
            && (x + HEADER <= a || d <= x)
  {
    PrevAt(h, b);
    PayloadsApart(h, b, x);
    HeadersApart2(h, End(h, b), x);
    HeadersApart2(h, b, x);
  }

  lemma SplitHeaderAt(m: seq<int>, m': seq<int>, h: Heap, b: int, n: int, x: int)
    requires Inv(h) && Mirror(m, h) && SplitStores(m, m', h, b, n) && Marked(Split(h, b, n), x)
    ensures HeadersAt(m', Split(h, b, n), x)
  {
    SplitFields(h, b, n, x);
    HeaderOf(m, h, x);
    CutIsFresh(h, b, n);
    EndInBounds(m, h, b);
    if x != End(h, b) - n { ApartFromCut(h, b, n, x); }
    hide Inv, Split, Mirror, PrevField, SizeField, Marked;
  }

  lemma SplitRing(m: seq<int>, m': seq<int>, h: Heap, b: int, n: int)
    requires Inv(h) && Mirror(m, h) && SplitStores(m, m', h, b, n)
    ensures Ring(m', h.free)
  {
    EndInBounds(m, h, b);
    CutIsFresh(h, b, n);
    hide Inv, Marked;
    var a, d := End(h, b) - n, End(h, b);
    forall k | 0 <= k <= |h.free|
      ensures var p := Node(h.free, k);
          0 <= p && p + BLINK < |m| && m'[p + FLINK] == m[p + FLINK] && m'[p + BLINK] == m[p + BLINK] {
      RingAt(m, h.free, k);
      LinksNotHeaders(h, k, b);
      LinksNotHeaders(h, k, d);
      LinksApartFromCut(h, k, b, n);
    }
    RingFrame(m, m', h.free);
  }

  lemma LinksApartFromCut(h: Heap, k: int, b: int, n: int)
    requires Inv(h) && CanCut(h, b, n) && 0 <= k <= |h.free|
    ensures var p, a := Node(h.free, k), End(h, b) - n; p + BLINK < a || a + BSIZE < p + FLINK
  {
    var p := Node(h.free, k);
    NodesApart(h, k, k);
    BlockAt(h, p, b);
    BlockAt(h, b, p);
  }

  lemma SplitMirror(m: seq<int>, m': seq<int>, h: Heap, b: int, n: int)
    requires Inv(h) && Mirror(m, h) && SplitStores(m, m', h, b, n)
    ensures Mirror(m', Split(h, b, n))
  {
    forall x | Marked(Split(h, b, n), x) ensures HeadersAt(m', Split(h, b, n), x) { SplitHeaderAt(m, m', h, b, n, x); }
    SplitRing(m, m', h, b, n);
    hide Inv, HeadersAt, Marked, Ring;
  }

  // Handing out a whole free block.

  /** Unlink it, flip its size, clear the back pointer behind it. */
  ghost predicate WholeStores(m: seq<int>, m1: seq<int>, m': seq<int>, h: Heap, i: nat) {
    && Unlinked(m, m1, h, i)
    && h.free[i] in h.size
    && var b, d := h.free[i], End(h, h.free[i]);
       && 0 <= b < |m| - 1 && 0 <= d < |m|
       && m' == m1[b + BSIZE := -h.size[b]][d + PREVFREE := 0]
  }

  /** The two stores that take free block i out of the circle. */
  ghost predicate Unlinked(m: seq<int>, m1: seq<int>, h: Heap, i: nat) {
    && i < |h.free|
    && var p, q := Node(h.free, i), Node(h.free, i + 2);
       && 0 <= p && p + BLINK < |m| && 0 <= q && q + BLINK < |m|
       && m1 == m[p + FLINK := q][q + BLINK := p]
  }

  /** They touch no header. */
  lemma UnlinkMissesHeader(m: seq<int>, m1: seq<int>, h: Heap, i: nat, x: int)
    requires Shape(h) && Unlinked(m, m1, h, i) && Marked(h, x) && x + BSIZE < |m|
    ensures 0 <= x && |m1| == |m| && m1[x + PREVFREE] == m[x + PREVFREE] && m1[x + BSIZE] == m[x + BSIZE]
  {
    LinksNotHeaders(h, i, x);
    LinksNotHeaders(h, if i + 2 == |h.free| + 1 then 0 else i + 2, x);
  }

  lemma WholeFields(h: Heap, i: nat, x: int)
    requires Inv(h) && i < |h.free| && h.free[i] in h.size && Marked(h, x)
    ensures var g, b, d := h.(free := Without(h.free, i)), h.free[i], End(h, h.free[i]);
            && PrevField(g, x) == (if x == d then 0 else PrevField(h, x))
            && SizeField(g, x) == (if x == b then -h.size[b] else SizeField(h, x))
  {
    WithoutFacts(h.free, i);
    PrevAt(h, h.free[i]);
    PrevAt(h, x);
    hide Inv, Without;
  }

  lemma WholeHeaderAt(m: seq<int>, m1: seq<int>, m': seq<int>, h: Heap, i: nat, x: int)
    requires Inv(h) && Mirror(m, h) && WholeStores(m, m1, m', h, i) && Marked(h, x)
    ensures HeadersAt(m', h.(free := Without(h.free, i)), x)
  {
    WholeFields(h, i, x);
    HeaderOf(m, h, x);
    UnlinkMissesHeader(m, m1, h, i, x);
    EndInBounds(m, h, h.free[i]);
    HeadersApart2(h, h.free[i], x);
    HeadersApart2(h, End(h, h.free[i]), x);
    hide Inv, Mirror, PrevField, SizeField, Marked, Without, Unlinked;
  }

  lemma WholeMirror(m: seq<int>, m1: seq<int>, m': seq<int>, h: Heap, i: nat)
    requires Inv(h) && Mirror(m, h) && WholeStores(m, m1, m', h, i)
    ensures Mirror(m', h.(free := Without(h.free, i)))
  {
    var g := h.(free := Without(h.free, i));
    assert forall x :: Marked(g, x) <==> Marked(h, x);
    forall x | Marked(g, x) ensures HeadersAt(m', g, x) { WholeHeaderAt(m, m1, m', h, i, x); }
    RingUnlink(m, m1, h, i);
    WholeKeepsInv(h, i);
    EndInBounds(m, h, h.free[i]);
    HeaderStoresKeepRing(m1, m', g);
    hide Inv, HeadersAt, Marked, Ring, Without;
  }

  // Releasing: while it lasts, the back pointer at one address d is still to be set.

  ghost predicate HeadersBut(m: seq<int>, h: Heap, d: int) {
    forall n {:trigger HeadersAt(m, h, n)} :: Marked(h, n) && n != d ==> HeadersAt(m, h, n)
  }

  ghost predicate Pending(m: seq<int>, h: Heap, d: int) {
    && InBounds(m, h) && HeadersBut(m, h, d) && Ring(m, h.free)
    && Marked(h, d) && 0 <= d && d + BSIZE < |m| && m[d + BSIZE] == SizeField(h, d)
  }

  /** Joining c to b changes one size field; only the back pointer behind is now out of date. */
  lemma JoinFields(h: Heap, b: int, c: int, x: int)
    requires Shape(h) && b in h.size && c in h.size && b in h.free && End(h, b) == c && Marked(Join(h, b, c), x)
    ensures var g := Join(h, b, c);
            && Marked(h, x) && x != c
            && (x != End(h, c) ==> PrevField(g, x) == PrevField(h, x))
            && SizeField(g, x) == (if x == b then h.size[b] + h.size[c] else SizeField(h, x))
  {
    BlockAt(h, b, c);
    BlockAt(h, c, c);
    JoinShape(h, b, c);
    PoolNotBlock(h, c);
    PrevAt(h, b);
    PrevAt(h, c);
    PrevAt(h, x);
    hide Shape, Join;
  }

  /** First half of a release when the block before is free: that block p grows. */
  ghost predicate GrowStores(m: seq<int>, m': seq<int>, h: Heap, b: int, c: int) {
    b in h.size && c in h.size && 0 <= b && b + BSIZE < |m| && m' == m[b + BSIZE := h.size[b] + h.size[c]]
  }

  lemma GrowHeaderAt(m: seq<int>, m': seq<int>, h: Heap, b: int, c: int, x: int)
    requires Shape(h) && b in h.free && c in h.size && GrowStores(m, m', h, b, c) && End(h, b) == c
        && Marked(Join(h, b, c), x)
    requires 0 <= x && x + BSIZE < |m| && m[x + BSIZE] == SizeField(h, x) && (x != End(h, c) ==> HeadersAt(m, h, x))
    ensures m'[x + BSIZE] == SizeField(Join(h, b, c), x) && (x != End(h, c) ==> HeadersAt(m', Join(h, b, c), x))
  {
    JoinFields(h, b, c, x);
    assert Marked(h, b);
    HeadersApart2(h, b, x);
    hide Shape, Join, PrevField, SizeField, Marked;
  }

  lemma FreedJoinsMirror(m: seq<int>, m': seq<int>, h: Heap, a: int)
    requires Inv(h) && Mirror(m, h) && Live(h, a) && FreeBefore(h, a) && GrowStores(m, m', h, h.prev[a], a)
    ensures Pending(m', Freed(h, a), End(h, a))
  {
    var p, d := h.prev[a], End(h, a);
    var g := Freed(h, a);
    PrevAt(h, a);
    EndInBounds(m, h, a);
    BlockAt(h, p, a);
    JoinShape(h, p, a);
    assert Marked(g, d);
    forall x | Marked(g, x)
      ensures 0 <= x && x + BSIZE < |m| && m'[x + BSIZE] == SizeField(g, x) && (x != d ==> HeadersAt(m', g, x))
    {
      JoinFields(h, p, a, x);
      HeaderOf(m, h, x);
      GrowHeaderAt(m, m', h, p, a, x);
    }
    assert Marked(h, p);
    HeaderStoresKeepRing(m, m', h);
    assert g.free == h.free;
    hide Inv, HeadersAt, Marked, Ring, Freed, SizeField, Headers;
  }

  /** First half of a release when it is not: the block goes to the back of the list. */
  ghost predicate Appended(m: seq<int>, m1: seq<int>, h: Heap, a: int) {
    var last := Node(h.free, |h.free|);
    && 0 <= a && a + BLINK < |m| && 0 <= last && last + BLINK < |m| && BASE <= |m|
    && m1 == m[a + FLINK := LIST_HEAD][a + BLINK := last][LIST_HEAD + BLINK := a][last + FLINK := a]
  }

  /** The four stores that do it touch no header. */
  lemma AppendMissesHeader(m: seq<int>, m1: seq<int>, h: Heap, a: int, x: int)
    requires Shape(h) && Appended(m, m1, h, a) && Marked(h, x) && x + BSIZE < |m|
        && (x + BSIZE < a + FLINK || a + BLINK < x)
    ensures 0 <= x && |m1| == |m| && m1[x + PREVFREE] == m[x + PREVFREE] && m1[x + BSIZE] == m[x + BSIZE]
  {
    LinksNotHeaders(h, |h.free|, x);
    LinksNotHeaders(h, 0, x);
  }

  lemma AppendFields(h: Heap, a: int, x: int)
    requires Inv(h) && Live(h, a) && Marked(h, x)
    ensures var g := h.(free := h.free + [a]);
            && (x != End(h, a) ==> PrevField(g, x) == PrevField(h, x))
            && SizeField(g, x) == (if x == a then h.size[a] else SizeField(h, x))
  {
    PrevAt(h, a);
    PrevAt(h, x);
  }

  lemma AppendHeaderAt(m: seq<int>, m1: seq<int>, m': seq<int>, h: Heap, a: int, x: int)
    requires Inv(h) && Mirror(m, h) && Live(h, a) && Appended(m, m1, h, a) && m' == m1[a + BSIZE := h.size[a]]
        && Marked(h, x)
    ensures var g := h.(free := h.free + [a]);
            && 0 <= x && x + BSIZE < |m| && m'[x + BSIZE] == SizeField(g, x) && (x != End(h, a) ==> HeadersAt(m', g, x))
  {
    AppendFields(h, a, x);
    HeaderOf(m, h, x);
    EndInBounds(m, h, a);
    PayloadsApart(h, a, x);
    HeadersApart2(h, a, x);
    AppendMissesHeader(m, m1, h, a, x);
    hide Inv, PrevField, SizeField, Marked, Mirror, Appended;
  }

  lemma FreedAppendsMirror(m: seq<int>, m1: seq<int>, m': seq<int>, h: Heap, a: int)
    requires Inv(h) && Mirror(m, h) && Live(h, a) && !FreeBefore(h, a) && Appended(m, m1, h, a)
        && m' == m1[a + BSIZE := h.size[a]]
    ensures Pending(m', Freed(h, a), End(h, a))
  {
    var d := End(h, a);
    var g := Freed(h, a);
    EndInBounds(m, h, a);
    AppendRing(m, m1, h, a);
    assert forall x :: Marked(g, x) <==> Marked(h, x);
    forall x | Marked(g, x)
      ensures 0 <= x && x + BSIZE < |m| && m'[x + BSIZE] == SizeField(g, x) && (x != d ==> HeadersAt(m', g, x))
    {
      AppendHeaderAt(m, m1, m', h, a, x);
    }
    FreedAppends(h, a);
    HeaderStoresKeepRing(m1, m', g);
    hide Inv, HeadersAt, Marked, Ring, Freed, SizeField, Headers, HalfFreed;
  }

  lemma AppendRing(m: seq<int>, m1: seq<int>, h: Heap, a: int)
    requires Inv(h) && Ring(m, h.free) && Live(h, a) && Appended(m, m1, h, a)
    ensures Ring(m1, h.free + [a])
  {
    BlockAt(h, a, a);
    forall k | 0 <= k <= |h.free| ensures var p := Node(h.free, k); p + MIN_BLOCK <= a || a + MIN_BLOCK <= p {
      var p := Node(h.free, k);
      NodesApart(h, k, k);
      BlockAt(h, p, a);
      BlockAt(h, p, p);
    }
    hide Inv, Ring;
    RingAppend(m, m1, h, a);
  }

  /** Second half: block c, free and next to b, is unlinked and added to b. */
  lemma JoinMirror(m: seq<int>, m1: seq<int>, m': seq<int>, h: Heap, b: int, c: int)
    requires Shape(h) && Pending(m, h, c) && b in h.free && c in h.free && b in h.size && c in h.size && End(h, b) == c
    requires Shape(Join(h, b, c)) && b in Join(h, b, c).size
    requires Unlinked(m, m1, h, IndexOf(h.free, c)) && GrowStores(m1, m', h, b, c)
    ensures Pending(m', Join(h, b, c), End(h, c))
  {
    var g, d := Join(h, b, c), End(h, c);
    EndInBounds(m, h, c);
    BlockAt(h, b, c);
    JoinShape(h, b, c);
    assert Marked(g, d) && Marked(g, b);
    RingUnlink(m, m1, h, IndexOf(h.free, c));
    forall x | Marked(g, x)
      ensures 0 <= x && x + BSIZE < |m| && m'[x + BSIZE] == SizeField(g, x) && (x != d ==> HeadersAt(m', g, x))
    {
      JoinFields(h, b, c, x);
      UnlinkedHeaderAt(m, m1, h, IndexOf(h.free, c), c, x);
      GrowHeaderAt(m1, m', h, b, c, x);
    }
    HeaderStoresKeepRing(m1, m', g);
    hide Shape, HeadersAt, Marked, Ring, SizeField, HeadersBut;
  }

  lemma UnlinkedHeaderAt(m: seq<int>, m1: seq<int>, h: Heap, i: nat, c: int, x: int)
    requires Shape(h) && Pending(m, h, c) && Unlinked(m, m1, h, i) && Marked(h, x) && x != c
    ensures HeadersAt(m1, h, x)
  {
    assert HeadersAt(m, h, x);
    UnlinkMissesHeader(m, m1, h, i, x);
    hide Shape, Pending, Unlinked, Marked, PrevField, SizeField;
  }

  /** Last store of a release: the back pointer behind the free block b. */
  lemma SettleMirror(m: seq<int>, m': seq<int>, h: Heap, b: int)
    requires Inv(h) && b in h.free && b in h.size && Pending(m, h, End(h, b))
    requires m' == m[End(h, b) + PREVFREE := h.size[b]]
    ensures Mirror(m', h)
  {
    var d := End(h, b);
    PrevAt(h, b);
    forall x | Marked(h, x) ensures HeadersAt(m', h, x) {
      assert x != d ==> HeadersAt(m, h, x);
      HeadersApart2(h, d, x);
    }
    HeaderStoresKeepRing(m, m', h);
    hide Inv, HeadersAt, Marked, Ring;
  }

  // A new pool: one free block at the back of the list, and a sentinel.

  ghost predicate PoolStores(m: seq<int>, m1: seq<int>, m': seq<int>, h: Heap, start: int, len: int) {
    && start >= BASE && len >= MIN_BLOCK + HEADER && start + len <= |m|
    && Appended(m, m1, h, start)
    && var e := start + len - HEADER;
       m' == m1[start + PREVFREE := 0][start + BSIZE := len - HEADER][e + PREVFREE := len - HEADER][e + BSIZE := ESENT]
  }

  lemma PoolFields(h: Heap, start: int, len: int, x: int)
    requires Inv(h) && CanAdd(h, start, len) && Marked(AddPool(h, start, len), x)
    ensures var g, e := AddPool(h, start, len), start + len - HEADER;
            && (x != start && x != e ==> Marked(h, x))
            && PrevField(g, x) == (if x == start then 0 else if x == e then len - HEADER else PrevField(h, x))
            && SizeField(g, x) == (if x == start then len - HEADER else if x == e then ESENT else SizeField(h, x))
  {
    PoolIsFresh(h, start, len);
    AddPoolShape(h, start, len);
    PrevAt(h, x);
    hide Inv, AddPool;
  }

  lemma MarkedOutside(h: Heap, start: int, len: int, x: int)
    requires Inv(h) && CanAdd(h, start, len) && Marked(h, x)
    ensures x + HEADER <= start || start + len <= x
  {
    PoolIsFresh(h, start, len);
    BlockAt(h, x, x);
    PoolAt(h, x);
    assert x in h.size ==> End(h, x) <= start || start + len <= x;
  }

  lemma PoolHeaderAt(m: seq<int>, m1: seq<int>, m': seq<int>, h: Heap, start: int, len: int, x: int)
    requires Inv(h) && Mirror(m, h) && CanAdd(h, start, len) && PoolStores(m, m1, m', h, start, len)
        && Marked(AddPool(h, start, len), x)
    ensures HeadersAt(m', AddPool(h, start, len), x)
  {
    PoolFields(h, start, len, x);
    HeaderOf(m, h, x);
    var e := start + len - HEADER;
    if x != start && x != e {
      MarkedOutside(h, start, len, x);
      AppendMissesHeader(m, m1, h, start, x);
    }
    hide Inv, AddPool, Mirror, PrevField, SizeField, Marked, CanAdd;
  }

  lemma PoolRing(m: seq<int>, m1: seq<int>, m': seq<int>, h: Heap, start: int, len: int)
    requires Inv(h) && Mirror(m, h) && CanAdd(h, start, len) && PoolStores(m, m1, m', h, start, len)
    ensures Ring(m', h.free + [start])
  {
    forall k | 0 <= k <= |h.free| ensures var p := Node(h.free, k); p + MIN_BLOCK <= start || start + len <= p {
      var p := Node(h.free, k);
      NodesApart(h, k, k);
      BlockAt(h, p, p);
      if p in h.size { PoolIsFresh(h, start, len); assert p < End(h, p) && End(h, p) - p >= MIN_BLOCK; }
    }
    hide Inv, Ring, CanAdd;
    RingAppend(m, m1, h, start);
    PoolHeadersKeepRing(m1, m', h.free, start, len);
  }

  lemma PoolHeadersKeepRing(m1: seq<int>, m': seq<int>, free: seq<int>, start: int, len: int)
    requires Ring(m1, free + [start]) && start >= BASE && len >= MIN_BLOCK + HEADER && start + len <= |m1|
    requires forall k {:trigger Node(free, k)} :: 0 <= k <= |free| ==>
               (var p := Node(free, k); p + MIN_BLOCK <= start || start + len <= p)
    requires var e := start + len - HEADER;
             m' == m1[start + PREVFREE := 0][start + BSIZE := len - HEADER]
                 [e + PREVFREE := len - HEADER][e + BSIZE := ESENT]
    ensures Ring(m', free + [start])
  {
    var g := free + [start];
    forall k | 0 <= k <= |g|
      ensures var p := Node(g, k);
          0 <= p && p + BLINK < |m1| && m'[p + FLINK] == m1[p + FLINK] && m'[p + BLINK] == m1[p + BLINK] {
      RingAt(m1, g, k);
      assert k <= |free| ==> Node(g, k) == Node(free, k);
      assert k == |g| ==> Node(g, k) == start;
    }
    RingFrame(m1, m', g);
  }

  lemma AddPoolMirror(m: seq<int>, m1: seq<int>, m': seq<int>, h: Heap, start: int, len: int)
    requires Inv(h) && Mirror(m, h) && CanAdd(h, start, len) && PoolStores(m, m1, m', h, start, len)
    ensures Mirror(m', AddPool(h, start, len))
  {
    var g := AddPool(h, start, len);
    forall x | Marked(g, x) ensures HeadersAt(m', g, x) { PoolHeaderAt(m, m1, m', h, start, len, x); }
    PoolRing(m, m1, m', h, start, len);
    hide Inv, HeadersAt, Marked, Ring;
  }

  // ---------------------------------------------------------------------------------------------
  // Payloads
  // ---------------------------------------------------------------------------------------------

  /** The payload of every live block other than a is word for word the same in m' as in m. */
  ghost predicate OthersSame(m: seq<int>, m': seq<int>, h: Heap, a: int) {
    forall x {:trigger SamePayload(m, m', h, x)} :: Live(h, x) && x != a ==> SamePayload(m, m', h, x)
  }

  lemma NothingStored(m: seq<int>, h: Heap, a: int)
    requires Shape(h) && InBounds(m, h)
    ensures OthersSame(m, m, h, a)
  {
    forall x | Live(h, x) && x != a ensures SamePayload(m, m, h, x) { EndInBounds(m, h, x); }
  }

  /** A live payload holds no header and no link. */
  lemma PayloadNotMarked(h: Heap, x: int, n: int, i: int)
    requires Shape(h) && x in h.size && Marked(h, n) && x + HEADER <= i < End(h, x)
    ensures i != n + PREVFREE && i != n + BSIZE
  {
    PayloadsApart(h, x, n);
  }

  lemma PayloadNotLink(h: Heap, x: int, k: int, i: int)
    requires Shape(h) && Live(h, x) && 0 <= k <= |h.free| && x + HEADER <= i < End(h, x)
    ensures var p := Node(h.free, k); i != p + FLINK && i != p + BLINK
  {
    var p := Node(h.free, k);
    NodesApart(h, k, k);
    BlockAt(h, x, p);
    BlockAt(h, p, p);
  }

  lemma SplitPayload(m: seq<int>, m': seq<int>, h: Heap, b: int, n: int, x: int)
    requires Inv(h) && Mirror(m, h) && SplitStores(m, m', h, b, n) && Live(h, x)
    ensures SamePayload(m, m', h, x)
  {
    EndInBounds(m, h, b);
    EndInBounds(m, h, x);
    BlockAt(h, b, x);
    forall i | x + HEADER <= i < End(h, x) ensures m'[i] == m[i] {
      PayloadNotMarked(h, x, b, i);
      PayloadNotMarked(h, x, End(h, b), i);
    }
  }

  lemma UnlinkPayload(m: seq<int>, m1: seq<int>, h: Heap, i: nat, x: int)
    requires Shape(h) && InBounds(m, h) && Unlinked(m, m1, h, i) && Live(h, x)
    ensures SamePayload(m, m1, h, x)
  {
    EndInBounds(m, h, x);
    forall j | x + HEADER <= j < End(h, x) ensures m1[j] == m[j] {
      PayloadNotLink(h, x, i, j);
      PayloadNotLink(h, x, if i + 2 == |h.free| + 1 then 0 else i + 2, j);
    }
  }

  lemma WholePayload(m: seq<int>, m1: seq<int>, m': seq<int>, h: Heap, i: nat, x: int)
    requires Inv(h) && Mirror(m, h) && WholeStores(m, m1, m', h, i) && Live(h, x)
    ensures SamePayload(m, m', h, x)
  {
    UnlinkPayload(m, m1, h, i, x);
    EndInBounds(m, h, x);
    EndInBounds(m, h, h.free[i]);
    forall j | x + HEADER <= j < End(h, x) ensures m'[j] == m[j] {
      assert m1[j] == m[j];
      PayloadNotMarked(h, x, h.free[i], j);
      PayloadNotMarked(h, x, End(h, h.free[i]), j);
    }
  }

  /** A store into the size field of b. */
  lemma GrowPayload(m: seq<int>, m': seq<int>, h: Heap, b: int, c: int, x: int)
    requires Shape(h) && InBounds(m, h) && GrowStores(m, m', h, b, c) && x in h.size
    ensures SamePayload(m, m', h, x)
  {
    EndInBounds(m, h, x);
    assert Marked(h, b);
    forall j | x + HEADER <= j < End(h, x) ensures m'[j] == m[j] { PayloadNotMarked(h, x, b, j); }
  }

  lemma AppendPayload(m: seq<int>, m1: seq<int>, h: Heap, a: int, x: int)
    requires Shape(h) && InBounds(m, h) && Appended(m, m1, h, a) && Live(h, x)
    requires a in h.size ==> x != a
    requires a !in h.size ==> End(h, x) <= a || a + MIN_BLOCK <= x
    ensures SamePayload(m, m1, h, x)
  {
    EndInBounds(m, h, x);
    BlockAt(h, a, x);
    BlockAt(h, x, a);
    BlockAt(h, a, a);
    forall j | x + HEADER <= j < End(h, x) ensures m1[j] == m[j] {
      PayloadNotLink(h, x, 0, j);
      PayloadNotLink(h, x, |h.free|, j);
    }
  }

  /** A store into a header word. */
  lemma HeaderPayload(m: seq<int>, m': seq<int>, h: Heap, n: int, i: int, v: int, x: int)
    requires Shape(h) && InBounds(m, h) && Marked(h, n) && n <= i <= n + BSIZE && 0 <= i < |m| && m' == m[i := v]
        && x in h.size
    ensures SamePayload(m, m', h, x)
  {
    EndInBounds(m, h, x);
    forall j | x + HEADER <= j < End(h, x) ensures m'[j] == m[j] { PayloadNotMarked(h, x, n, j); }
  }

  lemma PoolPayload(m: seq<int>, m1: seq<int>, m': seq<int>, h: Heap, start: int, len: int, x: int)
    requires Inv(h) && Mirror(m, h) && CanAdd(h, start, len) && PoolStores(m, m1, m', h, start, len) && Live(h, x)
    ensures SamePayload(m, m', h, x)
  {
    PoolIsFresh(h, start, len);
    assert End(h, x) <= start || start + len <= x;
    AppendPayload(m, m1, h, start, x);
    EndInBounds(m, h, x);
    forall j | x + HEADER <= j < End(h, x) ensures m'[j] == m[j] { assert m1[j] == m[j]; }
  }

  /** What a client does inside its own buffer does not disturb the heap. */
  lemma PayloadStoresKeepMirror(m: seq<int>, m': seq<int>, h: Heap, a: int)
    requires Inv(h) && Mirror(m, h) && Live(h, a) && |m'| == |m|
    requires forall i {:trigger m'[i]} :: 0 <= i < |m| && (i < a + HEADER || End(h, a) <= i) ==> m'[i] == m[i]
    ensures Mirror(m', h) && OthersSame(m, m', h, a)
  {
    EndInBounds(m, h, a);
    forall x | Marked(h, x) ensures HeadersAt(m', h, x) {
      HeaderOf(m, h, x);
      PayloadsApart(h, a, x);
    }
    forall k | 0 <= k <= |h.free|
      ensures var p := Node(h.free, k);
          0 <= p && p + BLINK < |m| && m'[p + FLINK] == m[p + FLINK] && m'[p + BLINK] == m[p + BLINK] {
      RingAt(m, h.free, k);
      var p := Node(h.free, k);
      NodesApart(h, k, k);
      BlockAt(h, a, p);
      BlockAt(h, p, p);
    }
    RingFrame(m, m', h.free);
    forall x | Live(h, x) && x != a ensures SamePayload(m, m', h, x) {
      EndInBounds(m, h, x);
      BlockAt(h, a, x);
    }
    hide Inv, HeadersAt, Marked, Ring;
  }

  // The headers that a release looks at.

  /** A live block has a negative size, and a clear back pointer behind it. */
  lemma BusyHeader(m: seq<int>, h: Heap, a: int)
    requires Inv(h) && Mirror(m, h) && Live(h, a)
    ensures BASE <= a && a + MIN_BLOCK <= End(h, a) < |m| && m[a + BSIZE] == -h.size[a] && m[End(h, a) + PREVFREE] == 0
  {
    EndInBounds(m, h, a);
    HeaderOf(m, h, a);
    HeaderOf(m, h, End(h, a));
    hide Inv, Mirror;
  }

  /** The two that meet in the middle of a release. */
  lemma PendingHeader(m: seq<int>, g: Heap, b: int, c: int)
    requires Shape(g) && Pending(m, g, c) && b in g.free && b in g.size && End(g, b) == c
    ensures BASE <= b && b + MIN_BLOCK <= c && c + BSIZE < |m| && m[b + BSIZE] == g.size[b]
        && (m[c + BSIZE] > 0 <==> c in g.free)
  {
    EndInBounds(m, g, b);
    assert HeadersAt(m, g, b);
    BlockAt(g, c, c);
    if c in g.free { FreeInSize(g, c); }
    hide Shape;
  }

  /** Once neighbours are joined, what follows a free block is in use. */
  lemma LastHeader(m: seq<int>, h: Heap, b: int)
    requires Inv(h) && b in h.free && b in h.size && Pending(m, h, End(h, b))
    ensures BASE <= b && b + MIN_BLOCK <= End(h, b) && End(h, b) + BSIZE < |m| && m[b + BSIZE] == h.size[b]
        && m[End(h, b) + BSIZE] < 0
  {
    PendingHeader(m, h, b, End(h, b));
    BlockAt(h, End(h, b), b);
    hide Blocks, Linked, Pools, InBounds, Ring, HeadersBut;
  }

  lemma AppendOnePayload(m: seq<int>, m1: seq<int>, m': seq<int>, h: Heap, a: int, x: int)
    requires Inv(h) && InBounds(m, h) && Appended(m, m1, h, a) && Live(h, a) && m' == m1[a + BSIZE := h.size[a]]
        && Live(h, x) && x != a
    ensures SamePayload(m, m', h, x)
  {
    AppendPayload(m, m1, h, a, x);
    EndInBounds(m, h, x);
    PayloadsApart(h, x, a);
    forall j | x + HEADER <= j < End(h, x) ensures m'[j] == m[j] { assert m1[j] == m[j]; }
  }

  lemma JoinKeepsShape(h: Heap, b: int, c: int)
    requires Shape(h) && b in h.size && c in h.size && End(h, b) == c
    ensures Shape(Join(h, b, c)) && b in Join(h, b, c).size
  {
    JoinKeeps(h, b, c);
    hide Join, Blocks, Linked, Pools;
    var g := Join(h, b, c);
    forall i | 0 <= i < |g.free| ensures g.free[i] in g.size {
      assert g.free[i] in g.free;
      FreeInSize(h, g.free[i]);
    }
  }

  /** The heap in the middle of a release. */
  lemma FreedIsHalf(h: Heap, a: int)
    requires Inv(h) && Live(h, a)
    ensures var g, b, c := Freed(h, a), FreedAt(h, a), End(h, a);
            && Shape(g) && b in g.free && b in g.size && End(g, b) == c
            && (c in g.free <==> c in h.free)
            && Rel(h, a) == (if c in h.free then Join(g, b, c) else g)
            && (c in h.free ==> c in g.size)
            && b in Rel(h, a).free && b in Rel(h, a).size
            && End(Rel(h, a), b) == if c in h.free then End(g, c) else c
  {
    var g, b, c := Freed(h, a), FreedAt(h, a), End(h, a);
    FreedKeepsNext(h, a);
    if FreeBefore(h, a) { FreedJoins(h, a); } else { FreedAppends(h, a); }
    BlockAt(g, b, b);
    assert b != c;
    if c in h.free { JoinKeeps(g, b, c); }
    hide Blocks, Linked, Pools, Join, Freed;
  }

  /** A block live before and after the first half has the same extent in both. */
  lemma FreedIsExact(h: Heap, a: int, x: int)
    requires Inv(h) && Live(h, a) && Live(h, x) && x != a
    ensures Live(Freed(h, a), x) && Freed(h, a).size[x] == h.size[x]
  {
    if FreeBefore(h, a) { FreedJoins(h, a); FreedSizes(h, a); }
  }

  lemma BrelPayloads(m: seq<int>, m1: seq<int>, m2: seq<int>, m3: seq<int>, h: Heap, a: int)
    requires Inv(h) && Live(h, a) && OthersSame(m, m1, h, a) && OthersSame(m1, m2, Freed(h, a), NULL)
    requires var r, b := Rel(h, a), FreedAt(h, a);
             b in r.size && Pending(m2, r, End(r, b)) && m3 == m2[End(r, b) + PREVFREE := r.size[b]]
    ensures OthersSame(m, m3, h, a)
  {
    var g, r, b := Freed(h, a), Rel(h, a), FreedAt(h, a);
    RelIsExact(h, a);
    forall x | Live(h, x) && x != a ensures SamePayload(m, m3, h, x) {
      FreedIsExact(h, a, x);
      assert Live(r, x) && r.size[x] == h.size[x];
      BlockAt(h, x, x);
      HeaderPayload(m2, m3, r, End(r, b), End(r, b) + PREVFREE, r.size[b], x);
      SamePayloads(m, m1, m2, m3, h, g, r, x);
    }
  }

  lemma SamePayloads(m: seq<int>, m1: seq<int>, m2: seq<int>, m3: seq<int>, h: Heap, g: Heap, r: Heap, x: int)
    requires x in h.size && x in g.size && x in r.size && h.size[x] == g.size[x] == r.size[x]
    requires SamePayload(m, m1, h, x) && SamePayload(m1, m2, g, x) && SamePayload(m2, m3, r, x)
    ensures SamePayload(m, m3, h, x)
  {
    forall i | x + HEADER <= i < End(h, x)
      ensures m3[i] == m[i]
    {
      assert m3[i] == m2[i] && m2[i] == m1[i] && m1[i] == m[i];
    }
  }

  /** The headers that joining c to b looks at. */
  lemma AbsorbedHeaders(m: seq<int>, m1: seq<int>, h: Heap, b: int, c: int)
    requires Shape(h) && Pending(m, h, c) && b in h.free && c in h.free && b in h.size && c in h.size && End(h, b) == c
    requires Unlinked(m, m1, h, IndexOf(h.free, c))
    ensures BASE <= b && b < c < End(h, c) < |m| && |m1| == |m| && c + BSIZE < |m|
    ensures m[c + BSIZE] == h.size[c] && m[End(h, c) + PREVFREE] == h.size[c]
    ensures m1[b + BSIZE] == h.size[b] && m1[c + BSIZE] == h.size[c]
  {
    EndInBounds(m, h, b);
    EndInBounds(m, h, c);
    assert HeadersAt(m, h, b) && HeadersAt(m, h, End(h, c));
    UnlinkMissesHeader(m, m1, h, IndexOf(h.free, c), b);
    UnlinkMissesHeader(m, m1, h, IndexOf(h.free, c), c);
    hide Shape, Unlinked;
  }

  lemma AbsorbPayload(m: seq<int>, m1: seq<int>, m': seq<int>, h: Heap, b: int, c: int, x: int)
    requires Shape(h) && Pending(m, h, c) && b in h.size && c in h.free && c in h.size && Live(h, x)
    requires Unlinked(m, m1, h, IndexOf(h.free, c)) && GrowStores(m1, m', h, b, c)
    ensures SamePayload(m, m', h, x)
  {
    UnlinkPayload(m, m1, h, IndexOf(h.free, c), x);
    GrowPayload(m1, m', h, b, c, x);
    hide Shape, Unlinked, GrowStores;
  }

  // Allocation followed by stores into the new buffer, and perhaps the release of the old one.

  lemma NullNotLive(h: Heap)
    requires Inv(h)
    ensures !Live(h, NULL)
  {
    BlockAt(h, NULL, NULL);
  }

  lemma OthersWeaken(m: seq<int>, m': seq<int>, h: Heap, a: int)
    requires Inv(h) && OthersSame(m, m', h, NULL)
    ensures OthersSame(m, m', h, a)
  {
    NullNotLive(h);
  }

  /** Two live payloads share no word. */
  lemma PayloadsOfTwo(h: Heap, x: int, y: int)
    requires Inv(h) && Live(h, x) && Live(h, y) && x != y
    ensures End(h, x) <= y || End(h, y) <= x
  {
    BlockAt(h, x, y);
  }

  /** As OthersSame, with two blocks excepted. */
  ghost predicate OthersButSame(m: seq<int>, m': seq<int>, h: Heap, a: int, c: int) {
    forall x {:trigger SamePayload(m, m', h, x)} :: Live(h, x) && x != a && x != c ==> SamePayload(m, m', h, x)
  }

  lemma OthersBut(m: seq<int>, m': seq<int>, h: Heap, a: int, c: int)
    requires OthersSame(m, m', h, a)
    ensures OthersButSame(m, m', h, a, c)
  {
  }

  /** Stores into the block just allocated, and the loss of block c. */
  lemma GetPayloads(m: seq<int>, m1: seq<int>, m2: seq<int>, h: Heap, n: int, c: int)
    requires Inv(h) && n >= MIN_BLOCK && OthersSame(m, m1, h, NULL)
    requires var (g, a) := Get(h, n); a != NULL && OthersButSame(m1, m2, g, a, c)
    ensures OthersSame(m, m2, h, c)
  {
    GetGives(h, n);
    NullNotLive(h);
    hide Inv, Get;
    var g := Get(h, n).0;
    forall x | Live(h, x) && x != c ensures SamePayload(m, m2, h, x) {
      assert SamePayload(m, m1, h, x) && SamePayload(m1, m2, g, x);
      SamePayloads(m, m1, m2, m2, h, g, g, x);
    }
  }

  lemma MovedPayloads(m: seq<int>, m1: seq<int>, m2: seq<int>, g: Heap, a: int, c: int)
    requires OthersSame(m, m1, g, c) && OthersSame(m1, m2, g, a)
    ensures OthersButSame(m, m2, g, c, a)
  {
    forall x | Live(g, x) && x != a && x != c ensures SamePayload(m, m2, g, x) {
      assert SamePayload(m, m1, g, x) && SamePayload(m1, m2, g, x);
      SamePayloads(m, m1, m2, m2, g, g, g, x);
    }
  }
}
