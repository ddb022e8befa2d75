/** The indexed binary heap inside calc_dist (src/user/sokoban.c): cells ordered by distance, 1-based. */
module Frontiers {

  /** pq: the heap. idx: where in pq a cell stands. dist: the keys. len: how many entries are in use. */
  datatype Queue = Queue(pq: seq<int>, idx: seq<int>, dist: seq<int>, len: int)

  ghost predicate Fits(pq: seq<int>, idx: seq<int>, dist: seq<int>, len: int) {
    |pq| == |idx| == |dist| && 0 <= len < |pq|
  }

  /** idx is inverse to pq on the entries in use. */
  ghost predicate Indexed(pq: seq<int>, idx: seq<int>, len: int)
    requires |pq| == |idx| && 0 <= len < |pq|
  {
    forall k {:trigger pq[k]} :: 1 <= k <= len ==> 0 <= pq[k] < |idx| && idx[pq[k]] == k
  }

  ghost predicate Listed(pq: seq<int>, idx: seq<int>, len: int, x: int) {
    0 <= x < |idx| && 1 <= idx[x] <= len < |pq| && pq[idx[x]] == x
  }

  function Key(pq: seq<int>, dist: seq<int>, k: int): int {
    if 0 <= k < |pq| && 0 <= pq[k] < |dist| then dist[pq[k]] else 0
  }

  /** Heap order between entry k and its parent. */
  ghost predicate Above(pq: seq<int>, dist: seq<int>, k: int) {
    Key(pq, dist, k / 2) <= Key(pq, dist, k)
  }

  ghost predicate Heap(pq: seq<int>, dist: seq<int>, len: int) {
    forall k {:trigger Above(pq, dist, k)} :: 2 <= k <= len ==> Above(pq, dist, k)
  }

  ghost predicate Ok(q: Queue) {
    Fits(q.pq, q.idx, q.dist, q.len) && Indexed(q.pq, q.idx, q.len) && Heap(q.pq, q.dist, q.len)
  }

  /** Entry i may be smaller than its parent; all else is in order, and entry i's children are no smaller than
      that parent. */
  ghost predicate UpAt(pq: seq<int>, dist: seq<int>, i: int, k: int) {
    && (k != i ==> Above(pq, dist, k))
    && (k / 2 == i && i >= 2 ==> Key(pq, dist, i / 2) <= Key(pq, dist, k))
  }

  ghost predicate AlmostUp(pq: seq<int>, dist: seq<int>, len: int, i: int) {
    forall k {:trigger UpAt(pq, dist, i, k)} :: 2 <= k <= len ==> UpAt(pq, dist, i, k)
  }

  /** Entry i may be greater than its children. */
  ghost predicate DownAt(pq: seq<int>, dist: seq<int>, i: int, k: int) {
    && (k / 2 != i ==> Above(pq, dist, k))
    && (k / 2 == i && i >= 2 ==> Key(pq, dist, i / 2) <= Key(pq, dist, k))
  }

  ghost predicate AlmostDown(pq: seq<int>, dist: seq<int>, len: int, i: int) {
    forall k {:trigger DownAt(pq, dist, i, k)} :: 2 <= k <= len ==> DownAt(pq, dist, i, k)
  }

  function Swap(pq: seq<int>, i: int, j: int): seq<int>
    requires 0 <= i < |pq| && 0 <= j < |pq|
  {
    pq[i := pq[j]][j := pq[i]]
  }

  /** Two entries change places, and idx follows. */
  lemma SwapKeeps(pq: seq<int>, idx: seq<int>, len: int, i: int, j: int)
    requires |pq| == |idx| && 0 <= len < |pq| && Indexed(pq, idx, len) && 1 <= i <= len && 1 <= j <= len
    ensures 0 <= pq[i] < |idx| && 0 <= pq[j] < |idx|
    ensures var pq', idx' := Swap(pq, i, j), idx[pq[j] := i][pq[i] := j];
            && Indexed(pq', idx', len)
            && (forall x {:trigger Listed(pq', idx', len, x)} :: Listed(pq', idx', len, x) <==> Listed(pq, idx, len, x))
            && (forall x {:trigger idx'[x]} :: 0 <= x < |idx| ==> (idx'[x] == 0 <==> idx[x] == 0))
  {
  }

  lemma StepUp(pq: seq<int>, dist: seq<int>, len: int, i: int)
    requires |pq| == |dist| && 2 <= i <= len < |pq| && AlmostUp(pq, dist, len, i)
        && Key(pq, dist, i / 2) > Key(pq, dist, i)
    ensures AlmostUp(Swap(pq, i, i / 2), dist, len, i / 2)
  {
    var j := i / 2;
    var pq' := Swap(pq, i, j);
    forall k | 2 <= k <= len ensures UpAt(pq', dist, j, k) {
      assert UpAt(pq, dist, i, k);
      if j >= 2 { assert UpAt(pq, dist, i, j); }
      KeyOfSwap(pq, dist, i, j, k);
      KeyOfSwap(pq, dist, i, j, k / 2);
      KeyOfSwap(pq, dist, i, j, j / 2);
      hide Key;
    }
  }

  lemma KeyOfSwap(pq: seq<int>, dist: seq<int>, i: int, j: int, k: int)
    requires 0 <= i < |pq| && 0 <= j < |pq|
    ensures Key(Swap(pq, i, j), dist, k) == Key(pq, dist, if k == i then j else if k == j then i else k)
  {
  }

  lemma UpDone(pq: seq<int>, dist: seq<int>, len: int, i: int)
    requires AlmostUp(pq, dist, len, i) && (i <= 1 || Key(pq, dist, i / 2) <= Key(pq, dist, i))
    ensures Heap(pq, dist, len)
  {
    forall k | 2 <= k <= len ensures Above(pq, dist, k) { assert UpAt(pq, dist, i, k); }
  }

  lemma StepDown(pq: seq<int>, dist: seq<int>, len: int, i: int, j: int)
    requires |pq| == |dist| && 1 <= i && 2 <= j <= len < |pq| && j / 2 == i && AlmostDown(pq, dist, len, i)
    requires Key(pq, dist, j) < Key(pq, dist, i) && NotAbove(pq, dist, len, j, i)
    ensures AlmostDown(Swap(pq, i, j), dist, len, j)
  {
    var pq' := Swap(pq, i, j);
    forall k | 2 <= k <= len ensures DownAt(pq', dist, j, k) {
      assert DownAt(pq, dist, i, k) && DownAt(pq, dist, i, j);
      KeyOfSwap(pq, dist, i, j, k);
      KeyOfSwap(pq, dist, i, j, k / 2);
      KeyOfSwap(pq, dist, i, j, j / 2);
      hide Key;
    }
  }

  /** Entry j is no greater than any child of i. */
  ghost predicate NotAbove(pq: seq<int>, dist: seq<int>, len: int, j: int, i: int) {
    forall k {:trigger Key(pq, dist, k)} :: 2 <= k <= len && k / 2 == i ==> Key(pq, dist, j) <= Key(pq, dist, k)
  }

  lemma DownDone(pq: seq<int>, dist: seq<int>, len: int, i: int)
    requires AlmostDown(pq, dist, len, i) && NotAbove(pq, dist, len, i, i)
    ensures Heap(pq, dist, len)
  {
    forall k | 2 <= k <= len ensures Above(pq, dist, k) {
      assert DownAt(pq, dist, i, k);
      assert k / 2 == i ==> Key(pq, dist, i) <= Key(pq, dist, k);
    }
  }

  /** The first entry is a smallest one. */
  lemma {:induction false} FirstIsLeast(q: Queue, k: int)
    requires Ok(q) && 1 <= k <= q.len
    ensures Key(q.pq, q.dist, 1) <= Key(q.pq, q.dist, k)
    decreases k
  {
    if k > 1 {
      assert Above(q.pq, q.dist, k);
      FirstIsLeast(q, k / 2);
    }
  }

  /** q' is q with cell c at key d, added or moved. */
  ghost predicate Pushed(q: Queue, q': Queue, c: int, d: int) {
    && Ok(q') && 0 <= c < |q.dist| && |q'.idx| == |q.idx| && q'.dist == q.dist[c := d]
    && q'.len == (if Listed(q.pq, q.idx, q.len, c) then q.len else q.len + 1)
    && (forall x {:trigger Listed(q'.pq, q'.idx, q'.len, x)} :: Listed(q'.pq, q'.idx, q'.len, x) <==>
        Listed(q.pq, q.idx, q.len, x) || x == c)
    && (forall x {:trigger q'.idx[x]} :: 0 <= x < |q.idx| && x != c ==> (q'.idx[x] == 0 <==> q.idx[x] == 0))
    && q'.idx[c] != 0
  }

  /** q' is q without cell c, which was first. */
  ghost predicate Popped(q: Queue, q': Queue, c: int) {
    && Ok(q') && |q'.idx| == |q.idx| && q'.dist == q.dist && q'.len == q.len - 1 && Listed(q.pq, q.idx, q.len, c)
    && (forall x {:trigger Listed(q'.pq, q'.idx, q'.len, x)} :: Listed(q'.pq, q'.idx, q'.len, x) <==>
        Listed(q.pq, q.idx, q.len, x) && x != c)
    && (forall x {:trigger q'.idx[x]} :: 0 <= x < |q.idx| ==> (q'.idx[x] == 0 <==> q.idx[x] == 0))
    && (forall x {:trigger Listed(q.pq, q.idx, q.len, x)} :: Listed(q.pq, q.idx, q.len, x) ==> q.dist[c] <= q.dist[x])
  }

  class Frontier {
    const pq: array<int>
    const qidx: array<int>
    const dist: array<int>
    var qlen: int

    constructor (dist: array<int>)
      ensures fresh(pq) && fresh(qidx) && this.dist == dist && qlen == 0 && Apart()
      ensures forall i {:trigger qidx[i]} :: 0 <= i < qidx.Length ==> qidx[i] == 0
    {
      pq := new int[dist.Length];
      qidx := new int[dist.Length](_ => 0);
      this.dist := dist;
      qlen := 0;
    }

    ghost function View(): Queue
      reads this, pq, qidx, dist
    {
      Queue(pq[..], qidx[..], dist[..], qlen)
    }

    ghost predicate Apart()
      reads this
    {
      pq != qidx && pq != dist && qidx != dist && pq.Length == qidx.Length == dist.Length
    }

    /** pq_push has a hole at i, where cell c with key d may go. */
    ghost predicate UpHole(q: Queue, i: int, c: int, d: int)
      reads this, pq, qidx, dist
    {
      && Apart() && Ok(q) && 1 <= i <= qlen < pq.Length && 0 <= c < dist.Length && dist[..] == q.dist
      && qlen == (if Listed(q.pq, q.idx, q.len, c) then q.len else q.len + 1)
      && SiftingUp(q, pq[..][i := c], qidx[..][c := i], q.dist[c := d], qlen, i, c)
    }

    lemma UpParent(q: Queue, i: int, c: int, d: int)
      requires UpHole(q, i, c, d) && i > 1
      ensures 0 <= pq[i / 2] < dist.Length && pq[i / 2] != c
      ensures Key(pq[..][i := c], q.dist[c := d], i / 2) == dist[pq[i / 2]]
          && Key(pq[..][i := c], q.dist[c := d], i) == d
    {
      UpEntries(q, pq[..][i := c], qidx[..][c := i], q.dist[c := d], qlen, i, c, d);
      hide SiftingUp;
    }

    /** One turn of its loop: the parent of the hole moves down into it. */
    method MoveDown(ghost q: Queue, i: int, c: int, ghost d: int)
      requires UpHole(q, i, c, d) && i > 1 && 0 <= pq[i / 2] < dist.Length && dist[pq[i / 2]] > d
      modifies pq, qidx
      ensures UpHole(q, i / 2, c, d)
    {
      var j := i / 2;
      ghost var v, x := pq[..][i := c], qidx[..][c := i];
      UpParent(q, i, c, d);
      PushStep(q, v, x, q.dist[c := d], qlen, i, c);
      hide SiftingUp, Ok;
      pq[i] := pq[j];
      qidx[pq[i]] := i;
      assert Swap(v, i, j) == pq[..][j := c];
      assert x[v[j] := i][c := j] == qidx[..][c := j];
    }

    /** pq_push, past its two tests: cell c enters with key d, or its key drops to d. */
    method Push(c: int, d: int)
      requires Apart() && Ok(View()) && 0 <= c < dist.Length && d < dist[c]
      requires Listed(pq[..], qidx[..], qlen, c) || (qidx[c] == 0 && qlen + 1 < pq.Length)
      modifies this`qlen, pq, qidx, dist
      ensures Pushed(old(View()), View(), c, d)
    {
      ghost var q := View();
      var i := qidx[c];
      if i == 0 {
        qlen := qlen + 1;
        i := qlen;
      }
      PushStart(q, pq[..][i := c], qidx[..][c := i], q.dist[c := d], qlen, i, c, d);
      assert UpHole(q, i, c, d);
      hide SiftingUp, Ok;
      if i > 1 { UpParent(q, i, c, d); }
      while i > 1 && dist[pq[i / 2]] > d
        invariant UpHole(q, i, c, d)
        invariant i > 1 ==> 0 <= pq[i / 2] < dist.Length
      {
        MoveDown(q, i, c, d);
        i := i / 2;
        if i > 1 { UpParent(q, i, c, d); }
      }
      if i > 1 { UpParent(q, i, c, d); }
      PushEnd(q, pq[..][i := c], qidx[..][c := i], q.dist[c := d], qlen, i, c, d);
      qidx[c] := i;
      pq[i] := c;
      dist[pq[i]] := d;
    }

    /** pq_pop has a hole at i, where the former last cell tmp may go; pop has left. */
    ghost predicate DownHole(q: Queue, i: int, pop: int, tmp: int)
      reads this, pq, qidx, dist
    {
      && Apart() && 1 <= i < pq.Length && 0 <= qlen < pq.Length && 0 <= tmp < dist.Length && dist[..] == q.dist
      && SiftingDown(q, pq[..][i := tmp], qidx[..][tmp := i], qlen, i, pop, tmp)
    }

    lemma DownChildren(q: Queue, i: int, pop: int, tmp: int)
      requires DownHole(q, i, pop, tmp)
      ensures Key(pq[..][i := tmp], q.dist, i) == dist[tmp]
      ensures i * 2 <= qlen ==> 0 <= pq[i * 2] < dist.Length && Key(pq[..][i := tmp], q.dist, i * 2) == dist[pq[i * 2]]
      ensures i * 2 < qlen ==>
          0 <= pq[i * 2 + 1] < dist.Length && Key(pq[..][i := tmp], q.dist, i * 2 + 1) == dist[pq[i * 2 + 1]]
    {
      DownEntries(q, pq[..][i := tmp], qidx[..][tmp := i], qlen, i, pop, tmp);
      hide SiftingDown;
    }

    /** One turn of its loop: child j moves up into the hole. */
    method MoveUp(ghost q: Queue, i: int, j: int, ghost pop: int, tmp: int)
      requires DownHole(q, i, pop, tmp) && 2 <= j <= qlen && j / 2 == i
          && NotAbove(pq[..][i := tmp], q.dist, qlen, j, i)
      requires Key(pq[..][i := tmp], q.dist, j) < Key(pq[..][i := tmp], q.dist, i)
      modifies pq, qidx
      ensures DownHole(q, j, pop, tmp)
    {
      ghost var v, x := pq[..][i := tmp], qidx[..][tmp := i];
      PopStep(q, v, x, qlen, i, j, pop, tmp);
      assert v[j] == pq[j];
      hide SiftingDown, NotAbove;
      pq[i] := pq[j];
      qidx[pq[i]] := i;
      assert Swap(v, i, j) == pq[..][j := tmp];
      assert x[v[j] := i][tmp := j] == qidx[..][tmp := j];
    }

    /** pq_pop. */
    method Pop() returns (pop: int)
      requires Apart() && Ok(View()) && qlen > 0
      modifies this`qlen, pq, qidx
      ensures Popped(old(View()), View(), pop)
    {
      ghost var q := View();
      FirstIsLeastOfAll(q);
      pop := pq[1];
      var tmp := pq[qlen];
      qlen := qlen - 1;
      pq[0] := pq[1];
      var i := 1;
      PopStart(q, pq[..][1 := tmp], qidx[..][tmp := 1], qlen, pop, tmp);
      assert DownHole(q, i, pop, tmp);
      DownChildren(q, i, pop, tmp);
      hide SiftingDown, NotAbove, Ok;
      while i * 2 <= qlen
        invariant DownHole(q, i, pop, tmp) && qlen == q.len - 1
        invariant i * 2 <= qlen ==> 0 <= pq[i * 2] < dist.Length
        decreases qlen - i
      {
        var j := i * 2;
        DownChildren(q, i, pop, tmp);
        if j < qlen && dist[pq[j]] > dist[pq[j + 1]] { j := j + 1; }
        SmallerChild(pq[..][i := tmp], q.dist, qlen, i, j);
        if dist[pq[j]] >= dist[tmp] {
          StopAbove(pq[..][i := tmp], q.dist, qlen, j, i);
          break;
        }
        MoveUp(q, i, j, pop, tmp);
        i := j;
        DownChildren(q, i, pop, tmp);
      }
      NoChildren(pq[..][i := tmp], q.dist, qlen, i);
      PopEnd(q, pq[..][i := tmp], qidx[..][tmp := i], qlen, i, pop, tmp);
      pq[i] := tmp;
      qidx[tmp] := i;
    }
  }

  /** In the middle of a pop: v and x are pq and idx with the former last cell put at the hole i. */
  ghost predicate SiftingDown(q: Queue, v: seq<int>, x: seq<int>, n: int, i: int, pop: int, tmp: int) {
    && Ok(q) && q.len == n + 1 > 0 && q.pq[1] == pop && q.pq[q.len] == tmp
    && Fits(v, x, q.dist, n) && 1 <= i < |v| && (n > 0 ==> i <= n) && v[i] == tmp && 0 <= tmp < |x| && x[tmp] == i
    && Indexed(v, x, n) && AlmostDown(v, q.dist, n, i)
    && (forall y {:trigger Listed(v, x, n, y)} :: Listed(v, x, n, y) <==> Listed(q.pq, q.idx, q.len, y) && y != pop)
    && (forall y {:trigger x[y]} :: 0 <= y < |x| ==> (x[y] == 0 <==> q.idx[y] == 0))
  }

  lemma FirstIsLeastOfAll(q: Queue)
    requires Ok(q) && q.len > 0
    ensures 0 <= q.pq[1] < |q.dist| && Listed(q.pq, q.idx, q.len, q.pq[1])
    ensures forall x {:trigger Listed(q.pq, q.idx, q.len, x)} :: Listed(q.pq, q.idx, q.len, x) ==>
        q.dist[q.pq[1]] <= q.dist[x]
  {
    forall x | Listed(q.pq, q.idx, q.len, x) ensures q.dist[q.pq[1]] <= q.dist[x] { FirstIsLeast(q, q.idx[x]); }
  }

  lemma PopStart(q: Queue, v: seq<int>, x: seq<int>, n: int, pop: int, tmp: int)
    requires Ok(q) && q.len == n + 1 > 0 && q.pq[1] == pop && q.pq[q.len] == tmp && 0 <= tmp < |q.idx|
    requires v == q.pq[0 := pop][1 := tmp] && x == q.idx[tmp := 1]
    ensures SiftingDown(q, v, x, n, 1, pop, tmp)
  {
    assert Indexed(v, x, n);
    assert q.idx[tmp] == q.len && q.idx[pop] == 1;
    forall k | 2 <= k <= n ensures DownAt(v, q.dist, 1, k) { assert Above(q.pq, q.dist, k); }
  }

  lemma DownEntries(q: Queue, v: seq<int>, x: seq<int>, n: int, i: int, pop: int, tmp: int)
    requires SiftingDown(q, v, x, n, i, pop, tmp)
    ensures Key(v, q.dist, i) == q.dist[tmp]
    ensures i * 2 <= n ==> v[i * 2] != tmp && 0 <= v[i * 2] < |x|
    ensures i * 2 < n ==> v[i * 2 + 1] != tmp && 0 <= v[i * 2 + 1] < |x|
  {
  }

  lemma NoChildren(v: seq<int>, dist: seq<int>, n: int, i: int)
    ensures i * 2 > n ==> NotAbove(v, dist, n, i, i)
  {
  }

  lemma StopAbove(v: seq<int>, dist: seq<int>, n: int, j: int, i: int)
    requires NotAbove(v, dist, n, j, i) && Key(v, dist, i) <= Key(v, dist, j)
    ensures NotAbove(v, dist, n, i, i)
  {
  }

  lemma SmallerChild(v: seq<int>, dist: seq<int>, n: int, i: int, j: int)
    requires 1 <= i && i * 2 <= n && (j == i * 2 || (j == i * 2 + 1 && j <= n))
    requires j == i * 2 && j < n ==> Key(v, dist, j) <= Key(v, dist, j + 1)
    requires j == i * 2 + 1 ==> Key(v, dist, j) <= Key(v, dist, i * 2)
    ensures j / 2 == i && NotAbove(v, dist, n, j, i)
  {
  }

  lemma PopStep(q: Queue, v: seq<int>, x: seq<int>, n: int, i: int, j: int, pop: int, tmp: int)
    requires SiftingDown(q, v, x, n, i, pop, tmp) && 2 <= j <= n && j / 2 == i && Key(v, q.dist, j) < Key(v, q.dist, i)
    requires NotAbove(v, q.dist, n, j, i)
    ensures 0 <= v[j] < |x| && SiftingDown(q, Swap(v, i, j), x[v[j] := i][tmp := j], n, j, pop, tmp)
  {
    SwapKeeps(v, x, n, i, j);
    StepDown(v, q.dist, n, i, j);
    hide AlmostDown, Indexed, Ok;
  }

  lemma PopEnd(q: Queue, v: seq<int>, x: seq<int>, n: int, i: int, pop: int, tmp: int)
    requires SiftingDown(q, v, x, n, i, pop, tmp) && Listed(q.pq, q.idx, q.len, pop)
    requires NotAbove(v, q.dist, n, i, i)
    requires forall y {:trigger Listed(q.pq, q.idx, q.len, y)} :: Listed(q.pq, q.idx, q.len, y) ==>
        q.dist[pop] <= q.dist[y]
    ensures Popped(q, Queue(v, x, q.dist, n), pop)
  {
    DownDone(v, q.dist, n, i);
    hide AlmostDown, Indexed, Heap;
  }

  /** In the middle of a push: v and x are pq and idx with c put at the hole i. */
  ghost predicate SiftingUp(q: Queue, v: seq<int>, x: seq<int>, d1: seq<int>, n: int, i: int, c: int) {
    && Fits(v, x, d1, n) && |x| == |q.idx| && 1 <= i <= n && v[i] == c && 0 <= c < |x| && x[c] == i
    && Indexed(v, x, n) && AlmostUp(v, d1, n, i)
    && (forall y {:trigger Listed(v, x, n, y)} :: Listed(v, x, n, y) <==> Listed(q.pq, q.idx, q.len, y) || y == c)
    && (forall y {:trigger x[y]} :: 0 <= y < |x| && y != c ==> (x[y] == 0 <==> q.idx[y] == 0))
  }

  lemma PushStart(q: Queue, v: seq<int>, x: seq<int>, d1: seq<int>, n: int, i: int, c: int, d: int)
    requires Ok(q) && 0 <= c < |q.dist| && d < q.dist[c] && d1 == q.dist[c := d]
    requires if q.idx[c] == 0 then n == i == q.len + 1 < |q.pq|
        else n == q.len && i == q.idx[c] && Listed(q.pq, q.idx, q.len, c)
    requires v == q.pq[i := c] && x == q.idx[c := i]
    ensures SiftingUp(q, v, x, d1, n, i, c)
  {
    assert Indexed(v, x, n);
    forall k | 2 <= k <= n ensures UpAt(v, d1, i, k) {
      if k <= q.len { assert Above(q.pq, q.dist, k); }
      if 2 <= i <= q.len { assert Above(q.pq, q.dist, i); }
    }
  }

  lemma UpEntries(q: Queue, v: seq<int>, x: seq<int>, d1: seq<int>, n: int, i: int, c: int, d: int)
    requires SiftingUp(q, v, x, d1, n, i, c) && 0 <= c < |q.dist| && d1 == q.dist[c := d]
    ensures Key(v, d1, i) == d
    ensures i > 1 ==> v[i / 2] != c && 0 <= v[i / 2] < |x| && Key(v, d1, i / 2) == q.dist[v[i / 2]]
  {
  }

  lemma PushStep(q: Queue, v: seq<int>, x: seq<int>, d1: seq<int>, n: int, i: int, c: int)
    requires SiftingUp(q, v, x, d1, n, i, c) && i > 1 && Key(v, d1, i / 2) > Key(v, d1, i)
    ensures 0 <= v[i / 2] < |x| && SiftingUp(q, Swap(v, i, i / 2), x[v[i / 2] := i][c := i / 2], d1, n, i / 2, c)
  {
    SwapKeeps(v, x, n, i, i / 2);
    StepUp(v, d1, n, i);
    hide AlmostUp, Indexed;
  }

  lemma PushEnd(q: Queue, v: seq<int>, x: seq<int>, d1: seq<int>, n: int, i: int, c: int, d: int)
    requires SiftingUp(q, v, x, d1, n, i, c) && (i == 1 || Key(v, d1, i / 2) <= Key(v, d1, i)) && Ok(q)
    requires |q.dist| == |q.pq| && d1 == q.dist[c := d]
        && n == (if Listed(q.pq, q.idx, q.len, c) then q.len else q.len + 1)
    ensures Pushed(q, Queue(v, x, d1, n), c, d)
  {
    UpDone(v, d1, n, i);
    hide AlmostUp, Indexed, Heap;
  }
}

/** calc_dist (src/user/sokoban.c): walking distances from the player. */
module Distances {
  import opened SokobanSpec
  import opened Sokoban
  import F = Frontiers

  /** The player can walk from p to c in at most n moves, avoiding walls and boxes. */
  ghost predicate Near(lv: Level, boxes: seq<int>, p: int, n: nat, c: int) {
    if n == 0 then c == p else
    (Near(lv, boxes, p, n - 1, c)
     || (!Blocked(lv, boxes, c)
         && (Near(lv, boxes, p, n - 1, c - lv.w) || Near(lv, boxes, p, n - 1, c + lv.w)
             || Near(lv, boxes, p, n - 1, c - 1) || Near(lv, boxes, p, n - 1, c + 1))))
  }

  predicate AllWalks(ms: seq<Move>) {
    forall i :: 0 <= i < |ms| ==> ms[i].Walk?
  }

  /** Moves ms, all walks, take the player from p to c. */
  ghost predicate WalksTo(lv: Level, boxes: seq<int>, p: int, ms: seq<Move>, c: int) {
    AllWalks(ms) && Run(lv, State(p, boxes), ms) == Some(State(c, boxes))
  }

  lemma {:induction false} RunAppend(lv: Level, s: State, ms: seq<Move>, m: Move)
    requires Run(lv, s, ms).Some?
    ensures Run(lv, s, ms + [m]) == Step(lv, Run(lv, s, ms).value, m)
    decreases |ms|
  {
    if ms == [] {
      assert ([m])[1..] == [];
    } else {
      assert (ms + [m])[0] == ms[0] && (ms + [m])[1..] == ms[1..] + [m];
      RunAppend(lv, Step(lv, s, ms[0]).value, ms[1..], m);
    }
  }

  /** The last step of a walk. */
  lemma LastStep(lv: Level, boxes: seq<int>, p: int, n: nat, c: int) returns (d: int)
    requires n > 0 && Near(lv, boxes, p, n, c) && !Near(lv, boxes, p, n - 1, c)
    ensures IsOffset(lv, d) && Near(lv, boxes, p, n - 1, c - d) && !Blocked(lv, boxes, c)
  {
    d := if Near(lv, boxes, p, n - 1, c - lv.w) then lv.w else if Near(lv, boxes, p, n - 1, c + lv.w) then -lv.w
         else if Near(lv, boxes, p, n - 1, c - 1) then 1 else -1;
  }

  lemma {:induction false} NearByWalking(lv: Level, boxes: seq<int>, p: int, n: nat, c: int) returns (ms: seq<Move>)
    requires Near(lv, boxes, p, n, c)
    ensures |ms| <= n && WalksTo(lv, boxes, p, ms, c)
    decreases n
  {
    if n == 0 {
      ms := [];
    } else if Near(lv, boxes, p, n - 1, c) {
      ms := NearByWalking(lv, boxes, p, n - 1, c);
    } else {
      var d := LastStep(lv, boxes, p, n, c);
      var ks := NearByWalking(lv, boxes, p, n - 1, c - d);
      ms := ks + [Walk(d)];
      RunAppend(lv, State(p, boxes), ks, Walk(d));
    }
  }

  lemma {:induction false} WalkingIsNear(lv: Level, boxes: seq<int>, p: int, ms: seq<Move>, c: int)
    requires WalksTo(lv, boxes, p, ms, c)
    ensures Near(lv, boxes, p, |ms|, c)
    decreases |ms|
  {
    if ms != [] {
      var k := |ms| - 1;
      var m := ms[k];
      assert ms == ms[..k] + [m];
      WalksRun(lv, State(p, boxes), ms, k);
      var s := Run(lv, State(p, boxes), ms[..k]).value;
      RunAppend(lv, State(p, boxes), ms[..k], m);
      WalkingIsNear(lv, boxes, p, ms[..k], s.player);
    }
  }

  /** A prefix of a run of walks is one, and leaves the boxes alone. */
  lemma {:induction false} WalksRun(lv: Level, s: State, ms: seq<Move>, k: nat)
    requires AllWalks(ms) && Run(lv, s, ms).Some? && k <= |ms|
    ensures Run(lv, s, ms[..k]).Some? && Run(lv, s, ms[..k]).value.boxes == s.boxes
    decreases k
  {
    if k > 0 {
      assert ms[0].Walk? && ms[..k][0] == ms[0] && ms[..k][1..] == ms[1..][..k - 1];
      assert AllWalks(ms[1..]);
      WalksRun(lv, Step(lv, s, ms[0]).value, ms[1..], k - 1);
    }
  }

  /** d is the length of a shortest walk from p to c, or t if there is none. */
  ghost predicate IsDistance(lv: Level, boxes: seq<int>, p: int, c: int, d: int, t: int) {
    if d == t then forall n: nat :: !Near(lv, boxes, p, n, c)
    else 0 <= d < t && Near(lv, boxes, p, d, c) && forall n: nat :: n < d ==> !Near(lv, boxes, p, n, c)
  }

  // ---------------------------------------------------------------------------------------------
  // The search
  // ---------------------------------------------------------------------------------------------

  ghost predicate Listed(q: F.Queue, x: int) {
    F.Listed(q.pq, q.idx, q.len, x)
  }

  ghost predicate Reached(q: F.Queue, x: int) {
    0 <= x < |q.dist| && 0 <= q.dist[x] < |q.dist|
  }

  ghost predicate RelaxedAt(lv: Level, boxes: seq<int>, q: F.Queue, x: int, d: int) {
    0 <= x < |q.dist| && (!Blocked(lv, boxes, x + d) ==> Reached(q, x + d) && q.dist[x + d] <= q.dist[x] + 1)
  }

  ghost predicate Relaxed(lv: Level, boxes: seq<int>, q: F.Queue, x: int) {
    RelaxedAt(lv, boxes, q, x, -lv.w) && RelaxedAt(lv, boxes, q, x, lv.w) && RelaxedAt(lv, boxes, q, x, -1)
        && RelaxedAt(lv, boxes, q, x, 1)
  }

  /** Cells have been reached exactly if they are listed or done. */
  ghost predicate Accounted(q: F.Queue, done: set<int>) {
    && |q.idx| == |q.dist|
    && (forall x {:trigger q.idx[x]} :: 0 <= x < |q.idx| ==>
        0 <= q.dist[x] <= |q.dist| && (q.idx[x] == 0 <==> q.dist[x] == |q.dist|))
    && (forall x {:trigger Listed(q, x)} :: Listed(q, x) ==> Reached(q, x) && x !in done)
    && (forall x {:trigger x in done} :: x in done ==> Reached(q, x))
    && (forall x {:trigger Reached(q, x)} :: Reached(q, x) ==> x in done || Listed(q, x))
  }

  /** What is known of a reached cell. */
  ghost predicate Genuine(lv: Level, boxes: seq<int>, room: set<int>, p: int, q: F.Queue, n: int) {
    forall x {:trigger Reached(q, x)} :: Reached(q, x) ==>
      x in room && !Blocked(lv, boxes, x) && Near(lv, boxes, p, q.dist[x], x) && q.dist[x] <= n
  }

  /** Cells are done in order of distance; last is the latest. */
  ghost predicate Ordered(q: F.Queue, done: set<int>, last: int) {
    && (forall x {:trigger x in done} :: x in done ==> Reached(q, x) && Reached(q, last) && q.dist[x] <= q.dist[last])
    && (forall y {:trigger Listed(q, y)} :: Listed(q, y) && done != {} ==>
        Reached(q, y) && Reached(q, last) && q.dist[last] <= q.dist[y])
    && (done != {} ==> last in done && Reached(q, last) && q.dist[last] + 1 <= |done|)
  }

  ghost predicate DoneRelaxed(lv: Level, boxes: seq<int>, q: F.Queue, done: set<int>, last: int) {
    forall x {:trigger x in done} :: x in done && x != last ==> Relaxed(lv, boxes, q, x)
  }

  ghost predicate Search(lv: Level, boxes: seq<int>, room: set<int>, p: int, q: F.Queue, done: set<int>, last: int) {
    && F.Ok(q) && |q.dist| == |lv.walls| && Accounted(q, done) && Genuine(lv, boxes, room, p, q, |done|)
    && Ordered(q, done, last) && DoneRelaxed(lv, boxes, q, done, last) && Reached(q, p) && q.dist[p] == 0
  }

  // Numbers of cells.

  lemma WallAhead(lv: Level, room: set<int>, c: int) returns (x: int)
    requires Enclosed(lv, room) && c in room
    ensures 0 <= x < |lv.walls| && x !in room
    decreases |lv.walls| - c
  {
    assert Beside(lv, room, c) && IsOffset(lv, 1);
    if c + 1 in room { x := WallAhead(lv, room, c + 1); } else { x := c + 1; }
  }

  lemma RoomIsSmaller(lv: Level, room: set<int>, c: int)
    requires Enclosed(lv, room) && c in room
    ensures |room| < |lv.walls|
  {
    var x := WallAhead(lv, room, c);
    var all := UpTo(|lv.walls|);
    forall y | y in room ensures y in all - {x} { assert !Wall(lv, y); }
    Subset(room, all - {x});
  }

  ghost function UpTo(n: nat): (s: set<int>)
    ensures |s| == n && forall x :: x in s <==> 0 <= x < n
  {
    if n == 0 then {} else UpTo(n - 1) + {n - 1}
  }

  ghost function Entries(pq: seq<int>, n: nat): set<int>
    requires n < |pq|
  {
    set k | 1 <= k <= n :: pq[k]
  }

  lemma {:induction false} EntriesSize(q: F.Queue, n: nat)
    requires F.Ok(q) && n <= q.len
    ensures |Entries(q.pq, n)| == n
    decreases n
  {
    if n > 0 {
      EntriesSize(q, n - 1);
      assert Entries(q.pq, n) == Entries(q.pq, n - 1) + {q.pq[n]};
      assert q.pq[n] !in Entries(q.pq, n - 1);
    }
  }

  /** There is room in the heap for a cell not reached before, and a walk to it is short. */
  lemma RoomForOneMore(lv: Level, boxes: seq<int>, room: set<int>, p: int, q: F.Queue, done: set<int>, last: int,
      c: int)
    requires Enclosed(lv, room) && Search(lv, boxes, room, p, q, done, last) && c in room && !Reached(q, c)
    ensures q.len + 1 < |q.pq|
  {
    var es := Entries(q.pq, q.len);
    EntriesSize(q, q.len);
    forall x | x in es ensures x in room && x !in done && Reached(q, x) {
      var k :| 1 <= k <= q.len && q.pq[k] == x;
      assert Listed(q, x);
      assert Reached(q, x);
    }
    forall x | x in done ensures x in room { assert Reached(q, x); }
    assert es !! done;
    assert |es + done + {c}| == q.len + |done| + 1;
    Subset(es + done + {c}, room);
    RoomIsSmaller(lv, room, c);
  }

  lemma StepIsShort(lv: Level, boxes: seq<int>, room: set<int>, p: int, q: F.Queue, done: set<int>, last: int)
    requires Enclosed(lv, room) && Search(lv, boxes, room, p, q, done, last) && done != {}
    ensures Reached(q, last) && q.dist[last] + 1 < |q.dist| && last in room && last in done
  {
    forall x | x in done ensures x in room { assert Reached(q, x); }
    Subset(done, room);
    RoomIsSmaller(lv, room, last);
  }

  // What one push keeps.

  /** From q to q' cell c was reached at d, one more than last. */
  ghost predicate PushedTo(q: F.Queue, q': F.Queue, last: int, c: int, d: int) {
    F.Pushed(q, q', c, d) && Reached(q, last) && d == q.dist[last] + 1 && d < q.dist[c] && d < |q.dist|
  }

  lemma PushReached(q: F.Queue, q': F.Queue, last: int, c: int, d: int, x: int)
    requires PushedTo(q, q', last, c, d)
    ensures |q'.dist| == |q.dist| && |q'.idx| == |q.idx|
    ensures Reached(q', x) <==> Reached(q, x) || x == c
    ensures Listed(q', x) <==> Listed(q, x) || x == c
    ensures 0 <= x < |q.dist| ==> q'.dist[x] == if x == c then d else q.dist[x]
    ensures Reached(q, x) ==> q'.dist[x] <= q.dist[x]
  {
  }

  lemma PushAccounted(q: F.Queue, q': F.Queue, done: set<int>, last: int, c: int, d: int)
    requires PushedTo(q, q', last, c, d) && Accounted(q, done) && Ordered(q, done, last) && done != {}
    ensures Accounted(q', done) && c !in done
  {
    hide F.Ok, F.Listed;
    assert c !in done;
    forall x | 0 <= x < |q'.idx| ensures 0 <= q'.dist[x] <= |q'.dist| && (q'.idx[x] == 0 <==> q'.dist[x] == |q'.dist|) {
      PushReached(q, q', last, c, d, x);
      assert q.idx[x] == 0 <==> q.dist[x] == |q.dist|;
    }
    forall x
      ensures (Listed(q', x) ==> Reached(q', x) && x !in done) && (x in done ==> Reached(q', x))
          && (Reached(q', x) ==> x in done || Listed(q', x))
    {
      PushReached(q, q', last, c, d, x);
    }
  }

  lemma PushOrdered(q: F.Queue, q': F.Queue, done: set<int>, last: int, c: int, d: int)
    requires PushedTo(q, q', last, c, d) && Ordered(q, done, last) && c !in done && done != {}
    ensures Ordered(q', done, last)
  {
    hide F.Ok, F.Listed, F.Pushed;
    PushReached(q, q', last, c, d, last);
    forall x ensures (x in done ==> Reached(q', x) && q'.dist[x] <= q'.dist[last])
              && (Listed(q', x) && done != {} ==> Reached(q', x) && q'.dist[last] <= q'.dist[x]) {
      PushReached(q, q', last, c, d, x);
    }
  }

  lemma PushGenuine(lv: Level, boxes: seq<int>, room: set<int>, p: int, q: F.Queue, q': F.Queue, n: int, last: int,
      c: int, d: int, e: int)
    requires PushedTo(q, q', last, c, d) && Genuine(lv, boxes, room, p, q, n) && c in room && !Blocked(lv, boxes, c)
    requires c == last + e && IsOffset(lv, e) && d <= n
    ensures Genuine(lv, boxes, room, p, q', n)
  {
    forall x | Reached(q', x)
      ensures x in room && !Blocked(lv, boxes, x) && Near(lv, boxes, p, q'.dist[x], x) && q'.dist[x] <= n
    {
      PushReached(q, q', last, c, d, x);
      if x == c {
        assert Near(lv, boxes, p, q.dist[last], last);
        NearStep(lv, boxes, p, q.dist[last], last, e);
      } else {
        assert Reached(q, x);
      }
    }
  }

  lemma NearStep(lv: Level, boxes: seq<int>, p: int, n: nat, x: int, e: int)
    requires Near(lv, boxes, p, n, x) && IsOffset(lv, e) && !Blocked(lv, boxes, x + e)
    ensures Near(lv, boxes, p, n + 1, x + e)
  {
    assert x == (x + e) - lv.w || x == (x + e) + lv.w || x == (x + e) - 1 || x == (x + e) + 1;
  }

  lemma PushRelaxedAt(lv: Level, boxes: seq<int>, q: F.Queue, q': F.Queue, last: int, c: int, d: int, x: int, e: int)
    requires PushedTo(q, q', last, c, d) && RelaxedAt(lv, boxes, q, x, e) && x != c
    ensures RelaxedAt(lv, boxes, q', x, e)
  {
    PushReached(q, q', last, c, d, x);
    PushReached(q, q', last, c, d, x + e);
  }

  lemma PushKeeps(lv: Level, boxes: seq<int>, room: set<int>, p: int, q: F.Queue, q': F.Queue, done: set<int>,
      last: int, c: int, d: int, e: int)
    requires Search(lv, boxes, room, p, q, done, last) && done != {} && PushedTo(q, q', last, c, d)
    requires c == last + e && IsOffset(lv, e) && c in room && !Blocked(lv, boxes, c)
    ensures Search(lv, boxes, room, p, q', done, last) && RelaxedAt(lv, boxes, q', last, e)
    ensures forall f {:trigger RelaxedAt(lv, boxes, q', last, f)} :: RelaxedAt(lv, boxes, q, last, f) ==>
        RelaxedAt(lv, boxes, q', last, f)
  {
    PushAccounted(q, q', done, last, c, d);
    PushOrdered(q, q', done, last, c, d);
    PushGenuine(lv, boxes, room, p, q, q', |done|, last, c, d, e);
    PushReached(q, q', last, c, d, last);
    PushReached(q, q', last, c, d, p);
    PushReached(q, q', last, c, d, c);
    forall f | RelaxedAt(lv, boxes, q, last, f)
      ensures RelaxedAt(lv, boxes, q', last, f)
    {
      PushRelaxedAt(lv, boxes, q, q', last, c, d, last, f);
    }
    forall x | x in done && x != last ensures Relaxed(lv, boxes, q', x) {
      assert Relaxed(lv, boxes, q, x);
      PushRelaxedAt(lv, boxes, q, q', last, c, d, x, -lv.w);
      PushRelaxedAt(lv, boxes, q, q', last, c, d, x, lv.w);
      PushRelaxedAt(lv, boxes, q, q', last, c, d, x, -1);
      PushRelaxedAt(lv, boxes, q, q', last, c, d, x, 1);
    }
    assert last in done && last != c;
    hide Accounted, Genuine, Ordered, Blocked, Listed, Relaxed;
  }

  /** What one pop keeps: the cell leaving the heap is done, and the latest. */
  lemma PopKeeps(lv: Level, boxes: seq<int>, room: set<int>, p: int, q: F.Queue, q': F.Queue, done: set<int>,
      last: int, pop: int)
    requires Search(lv, boxes, room, p, q, done, last) && F.Popped(q, q', pop)
        && (done != {} ==> Relaxed(lv, boxes, q, last))
    ensures Search(lv, boxes, room, p, q', done + {pop}, pop) && pop !in done
  {
    var now := done + {pop};
    assert Listed(q, pop) && Reached(q, pop) && pop !in done;
    assert |now| == |done| + 1;
    assert q'.dist == q.dist;
    PopAccounted(q, q', done, pop);
    PopOrdered(lv, boxes, room, p, q, q', done, last, pop);
    assert Genuine(lv, boxes, room, p, q', |now|) by {
      forall x | Reached(q', x)
        ensures x in room && !Blocked(lv, boxes, x) && Near(lv, boxes, p, q'.dist[x], x) && q'.dist[x] <= |now|
      {
        assert Reached(q, x);
      }
    }
    forall x | x in now && x != pop ensures Relaxed(lv, boxes, q', x) {
      assert Relaxed(lv, boxes, q, x);
      SameRelaxed(lv, boxes, q, q', x);
    }
    hide Accounted, Genuine, Ordered, Relaxed, Listed;
  }

  lemma SameRelaxed(lv: Level, boxes: seq<int>, q: F.Queue, q': F.Queue, x: int)
    requires q'.dist == q.dist && Relaxed(lv, boxes, q, x)
    ensures Relaxed(lv, boxes, q', x)
  {
  }

  lemma PopAccounted(q: F.Queue, q': F.Queue, done: set<int>, pop: int)
    requires Accounted(q, done) && F.Popped(q, q', pop)
    ensures Accounted(q', done + {pop})
  {
    hide F.Ok, F.Listed;
    forall x ensures (Listed(q', x) ==> Reached(q', x) && x !in done + {pop}) && (x in done + {pop} ==> Reached(q', x))
              && (Reached(q', x) ==> x in done + {pop} || Listed(q', x)) {
      assert Listed(q, pop);
      assert Listed(q', x) <==> Listed(q, x) && x != pop;
      assert Reached(q', x) <==> Reached(q, x);
    }
    forall x | 0 <= x < |q'.idx| ensures 0 <= q'.dist[x] <= |q'.dist| && (q'.idx[x] == 0 <==> q'.dist[x] == |q'.dist|) {
      assert q.idx[x] == 0 <==> q.dist[x] == |q.dist|;
    }
  }

  lemma PopOrdered(lv: Level, boxes: seq<int>, room: set<int>, p: int, q: F.Queue, q': F.Queue, done: set<int>,
      last: int, pop: int)
    requires Accounted(q, done) && Ordered(q, done, last) && Genuine(lv, boxes, room, p, q, |done|)
        && F.Popped(q, q', pop)
    ensures Ordered(q', done + {pop}, pop)
  {
    hide F.Ok, F.Listed, Near, Blocked;
    assert Listed(q, pop) && Reached(q, pop) && pop !in done && |done + {pop}| == |done| + 1;
    forall x ensures (Listed(q', x) ==> Listed(q, x)) && (Reached(q', x) <==> Reached(q, x)) {}
    forall y | Listed(q', y) ensures Reached(q', y) && q'.dist[pop] <= q'.dist[y] { assert Listed(q, y); }
    forall x | x in done ensures q'.dist[x] <= q'.dist[pop] { assert q.dist[x] <= q.dist[last]; }
  }

  /** With the heap empty, what has been reached is what can be, and at its distance. */
  lemma {:induction false} ReachedByThen(lv: Level, boxes: seq<int>, room: set<int>, p: int, q: F.Queue,
      done: set<int>, last: int, n: nat, c: int)
    requires Search(lv, boxes, room, p, q, done, last) && q.len == 0 && (done != {} ==> Relaxed(lv, boxes, q, last))
    requires Near(lv, boxes, p, n, c)
    ensures Reached(q, c) && q.dist[c] <= n
    decreases n
  {
    if n == 0 {
      assert c == p;
    } else if Near(lv, boxes, p, n - 1, c) {
      ReachedByThen(lv, boxes, room, p, q, done, last, n - 1, c);
    } else {
      var d := LastStep(lv, boxes, p, n, c);
      ReachedByThen(lv, boxes, room, p, q, done, last, n - 1, c - d);
      hide Near, Genuine, Ordered, Blocked;
      var x := c - d;
      assert !Listed(q, x);
      assert x in done;
      assert Relaxed(lv, boxes, q, x);
      assert RelaxedAt(lv, boxes, q, x, d);
      assert x + d == c;
    }
  }

  lemma DistancesFound(lv: Level, boxes: seq<int>, room: set<int>, p: int, q: F.Queue, done: set<int>, last: int,
      c: int)
    requires Search(lv, boxes, room, p, q, done, last) && q.len == 0 && (done != {} ==> Relaxed(lv, boxes, q, last))
    requires 0 <= c < |q.dist|
    ensures IsDistance(lv, boxes, p, c, q.dist[c], |q.dist|)
  {
    assert |q.idx| == |q.dist| && (q.idx[c] == 0 <==> q.dist[c] == |q.dist|);
    forall n: nat | Near(lv, boxes, p, n, c)
      ensures Reached(q, c) && q.dist[c] <= n
    {
      ReachedByThen(lv, boxes, room, p, q, done, last, n, c);
    }
    if Reached(q, c) { assert Near(lv, boxes, p, q.dist[c], c); }
  }

  lemma StartSearch(lv: Level, boxes: seq<int>, room: set<int>, p: int, q: F.Queue, q': F.Queue)
    requires F.Ok(q) && q.len == 0 && 0 <= p < |q.dist| == |lv.walls| && p in room && !Blocked(lv, boxes, p)
    requires forall x {:trigger q.idx[x]} {:trigger q.dist[x]} :: 0 <= x < |q.dist| ==>
        q.idx[x] == 0 && q.dist[x] == |q.dist|
    requires F.Pushed(q, q', p, 0)
    ensures Search(lv, boxes, room, p, q', {}, -1)
  {
    forall x ensures (Listed(q', x) <==> x == p) && (Reached(q', x) <==> x == p) { assert !Listed(q, x); }
    forall x | 0 <= x < |q'.idx|
      ensures 0 <= q'.dist[x] <= |q'.dist| && (q'.idx[x] == 0 <==> q'.dist[x] == |q'.dist|)
    {
      assert q.idx[x] == 0;
    }
    assert Accounted(q', {});
    assert Near(lv, boxes, p, 0, p);
  }

  /** pq_push as calc_dist calls it: cell last + e can be had in d moves. */
  method Visit(s: Solver, f: F.Frontier, ghost boxes: seq<int>, ghost p: int, ghost done: set<int>, last: int, e: int,
      d: int)
    requires s.Valid() && f.Apart() && f.dist == s.dist && f.pq != s.board && f.qidx != s.board
        && Shows(s.lv, s.board[..], boxes)
    requires Search(s.lv, boxes, s.room, p, f.View(), done, last) && done != {} && IsOffset(s.lv, e)
    requires last in s.room && Reached(f.View(), last) && d == s.dist[last] + 1
    modifies f`qlen, f.pq, f.qidx, f.dist
    ensures Search(s.lv, boxes, s.room, p, f.View(), done, last) && RelaxedAt(s.lv, boxes, f.View(), last, e)
    ensures forall g {:trigger RelaxedAt(s.lv, boxes, f.View(), last, g)} ::
        old(RelaxedAt(s.lv, boxes, f.View(), last, g)) ==> RelaxedAt(s.lv, boxes, f.View(), last, g)
    ensures s.dist[last] == old(s.dist[last])
  {
    ghost var q := f.View();
    var c := last + e;
    BesideAt(s.lv, s.room, s.board[..], boxes, last, e);
    StepIsShort(s.lv, boxes, s.room, p, q, done, last);
    assert d <= 0x7fff;
    if s.board[c] >= WALL {
      return;
    }
    ReachedOrFresh(s.lv, boxes, s.room, p, q, done, last, c);
    hide Enclosed, Shows, Near, Genuine, Ordered, DoneRelaxed, Relaxed, F.Ok;
    if s.dist[c] <= d {
      return;
    }
    f.Push(c, d);
    PushKeeps(s.lv, boxes, s.room, p, q, f.View(), done, last, c, d, e);
    PushReached(q, f.View(), last, c, d, last);
  }

  /** What a cell of the room next to a done cell can be. */
  lemma ReachedOrFresh(lv: Level, boxes: seq<int>, room: set<int>, p: int, q: F.Queue, done: set<int>, last: int,
      c: int)
    requires Enclosed(lv, room) && Search(lv, boxes, room, p, q, done, last) && done != {} && c in room
        && 0 <= c < |q.dist|
    ensures |q.idx| == |q.pq| == |q.dist| && 0 <= q.dist[c] <= |q.dist|
    ensures q.dist[last] + 1 < q.dist[c] ==> c != last && (Listed(q, c) || (q.idx[c] == 0 && q.len + 1 < |q.pq|))
  {
    assert q.idx[c] == 0 <==> q.dist[c] == |q.dist|;
    if q.dist[c] < |q.dist| {
      assert Reached(q, c);
      assert c in done ==> q.dist[c] <= q.dist[last];
    } else {
      RoomForOneMore(lv, boxes, room, p, q, done, last, c);
    }
  }

  /** One turn of calc_dist's loop: the nearest cell leaves the heap and its four neighbours are tried. */
  method Expand(s: Solver, f: F.Frontier, ghost boxes: seq<int>, ghost p: int, ghost done: set<int>, ghost last: int)
    returns (ghost now: set<int>, ghost pop: int)
    requires s.Valid() && f.Apart() && f.dist == s.dist && f.pq != s.board && f.qidx != s.board
        && Shows(s.lv, s.board[..], boxes)
    requires Search(s.lv, boxes, s.room, p, f.View(), done, last)
        && (done != {} ==> Relaxed(s.lv, boxes, f.View(), last)) && f.qlen > 0
    modifies f`qlen, f.pq, f.qidx, f.dist
    ensures Search(s.lv, boxes, s.room, p, f.View(), now, pop) && Relaxed(s.lv, boxes, f.View(), pop)
    ensures pop !in done && now == done + {pop} && pop in s.room
  {
    ghost var lv, room, q := s.lv, s.room, f.View();
    var c := f.Pop();
    pop, now := c, done + {c};
    PopKeeps(lv, boxes, room, p, q, f.View(), done, last, c);
    StepIsShort(lv, boxes, room, p, f.View(), now, c);
    s.SameWidth();
    assert IsOffset(lv, -1) && IsOffset(lv, -s.w);
    hide s.Valid, Enclosed, Shows, Search, RelaxedAt, IsOffset;
    var d := s.dist[c] + 1;
    Visit(s, f, boxes, p, now, c, -s.w, d);
    StepIsShort(lv, boxes, room, p, f.View(), now, c);
    Visit(s, f, boxes, p, now, c, s.w, d);
    StepIsShort(lv, boxes, room, p, f.View(), now, c);
    Visit(s, f, boxes, p, now, c, -1, d);
    StepIsShort(lv, boxes, room, p, f.View(), now, c);
    Visit(s, f, boxes, p, now, c, 1, d);
  }

  /** calc_dist: every cell's distance from the player on the board as it stands, or the number of cells for
      one that cannot be walked to. */
  method CalcDist(s: Solver, player: int, ghost boxes: seq<int>)
    requires s.Valid() && Shows(s.lv, s.board[..], boxes) && player in s.room && player !in boxes
    modifies s.dist
    ensures forall c :: 0 <= c < s.dist.Length ==> IsDistance(s.lv, boxes, player, c, s.dist[c], s.dist.Length)
  {
    ghost var lv, room := s.lv, s.room;
    BesideAt(lv, room, s.board[..], boxes, player, 1);
    RoomIsSmaller(lv, room, player);
    var t := s.dist.Length;
    var f := new F.Frontier(s.dist);
    for i := 0 to t
      invariant forall k {:trigger s.dist[k]} :: 0 <= k < i ==> s.dist[k] == t
      invariant f.qlen == 0 && forall k {:trigger f.qidx[k]} :: 0 <= k < t ==> f.qidx[k] == 0
    {
      s.dist[i] := t;
    }
    ghost var q := f.View();
    assert F.Ok(q);
    f.Push(player, 0);
    StartSearch(lv, boxes, room, player, q, f.View());
    ghost var done, last := {}, -1;
    while f.qlen > 0
      invariant Search(lv, boxes, room, player, f.View(), done, last)
          && (done != {} ==> Relaxed(lv, boxes, f.View(), last))
      invariant done <= room
      decreases |room - done|
    {
      done, last := Expand(s, f, boxes, player, done, last);
    }
    forall c | 0 <= c < t ensures IsDistance(lv, boxes, player, c, s.dist[c], t) {
      DistancesFound(lv, boxes, room, player, f.View(), done, last, c);
    }
  }
}
