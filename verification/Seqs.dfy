/** Lists in which nothing occurs twice. */
module Seqs {

  ghost predicate Distinct<T>(q: seq<T>) {
    forall i, j :: 0 <= i < j < |q| ==> q[i] != q[j]
  }

  function Without<T>(q: seq<T>, i: nat): (r: seq<T>)
    requires i < |q|
    ensures |r| == |q| - 1
  {
    q[..i] + q[i + 1..]
  }

  /** Taking out one place takes out one thing, and nothing else. */
  lemma WithoutFacts<T>(q: seq<T>, i: nat)
    requires Distinct(q) && i < |q|
    ensures Distinct(Without(q, i))
    ensures forall t {:trigger t in Without(q, i)} :: t in Without(q, i) <==> t in q && t != q[i]
  {
    var r := Without(q, i);
    forall t | t in q && t != q[i] ensures t in r {
      var k :| 0 <= k < |q| && q[k] == t;
      assert r[if k < i then k else k - 1] == t;
    }
  }

  lemma DistinctSum<T>(a: seq<T>, b: seq<T>)
    requires Distinct(a) && Distinct(b) && forall t {:trigger t in a} :: t in a ==> t !in b
    ensures Distinct(a + b)
  {
    forall i, j | 0 <= i < j < |a + b| ensures (a + b)[i] != (a + b)[j] {
      if i < |a| <= j { assert a[i] in a; assert b[j - |a|] in b; }
    }
  }

  /** x is in front of y. */
  ghost predicate Before<T>(q: seq<T>, x: T, y: T) {
    exists i, j :: 0 <= i < j < |q| && q[i] == x && q[j] == y
  }

  /** Of two different things in a list without repetition one is in front. */
  lemma BeforeTotal<T>(q: seq<T>, x: T, y: T)
    requires Distinct(q) && x in q && y in q && x != y
    ensures Before(q, x, y) <==> !Before(q, y, x)
  {
    var i :| 0 <= i < |q| && q[i] == x;
    var j :| 0 <= j < |q| && q[j] == y;
  }

  /** What is left keeps its order. */
  lemma WithoutOrder<T>(q: seq<T>, i: nat, x: T, y: T)
    requires Distinct(q) && i < |q|
    ensures Before(Without(q, i), x, y) <==> Before(q, x, y) && x != q[i] && y != q[i]
  {
    if Before(Without(q, i), x, y) { WithoutOrderOnly(q, i, x, y); }
    if Before(q, x, y) && x != q[i] && y != q[i] { WithoutOrderAll(q, i, x, y); }
  }

  lemma WithoutOrderOnly<T>(q: seq<T>, i: nat, x: T, y: T)
    requires Distinct(q) && i < |q| && Before(Without(q, i), x, y)
    ensures Before(q, x, y) && x != q[i] && y != q[i]
  {
    var r := Without(q, i);
    var j, k :| 0 <= j < k < |r| && r[j] == x && r[k] == y;
    var j', k' := if j < i then j else j + 1, if k < i then k else k + 1;
    assert q[j'] == x && q[k'] == y;
  }

  lemma WithoutOrderAll<T>(q: seq<T>, i: nat, x: T, y: T)
    requires i < |q| && Before(q, x, y) && x != q[i] && y != q[i]
    ensures Before(Without(q, i), x, y)
  {
    var j, k :| 0 <= j < k < |q| && q[j] == x && q[k] == y;
    var r, j', k' := Without(q, i), if j < i then j else j - 1, if k < i then k else k - 1;
    assert r[j'] == x && r[k'] == y;
  }

  /** What is added at the back is behind all others. */
  lemma AppendOrder<T>(q: seq<T>, t: T, x: T, y: T)
    requires t !in q
    ensures Before(q + [t], x, y) <==> Before(q, x, y) || (x in q && y == t)
  {
    var r := q + [t];
    if Before(r, x, y) {
      var j, k :| 0 <= j < k < |r| && r[j] == x && r[k] == y;
      assert q[j] == x;
      if k < |q| { assert q[k] == y; }
    }
    if Before(q, x, y) {
      var j, k :| 0 <= j < k < |q| && q[j] == x && q[k] == y;
      assert r[j] == x && r[k] == y;
    }
    if x in q && y == t {
      var j :| 0 <= j < |q| && q[j] == x;
      assert r[j] == x && r[|q|] == y;
    }
  }

  lemma TailFacts<T>(q: seq<T>)
    requires Distinct(q) && q != []
    ensures Distinct(q[1..])
    ensures forall t {:trigger t in q[1..]} :: t in q[1..] <==> t in q && t != q[0]
  {
    assert q == [q[0]] + q[1..];
  }
}

/** The choice of a thread from a queue (src/geekos/kthread.c): the scheduler's and that of a wakeup. */
module ThreadQueues {

  function Priority(prio: seq<int>, t: int): int {
    if 0 <= t < |prio| then prio[t] else 0
  }

  /** Position of the thread Find_Best takes among the first k. */
  function BestOf(prio: seq<int>, q: seq<int>, k: nat): (i: nat)
    requires 0 < k <= |q|
    ensures i < k
  {
    if k == 1 then 0 else
    var i := BestOf(prio, q, k - 1);
    if Priority(prio, q[k - 1]) > Priority(prio, q[i]) then k - 1 else i
  }

  /** It is the first of the highest priority. */
  lemma {:induction false} BestIsBest(prio: seq<int>, q: seq<int>, k: nat)
    requires 0 < k <= |q|
    ensures var i := BestOf(prio, q, k);
            && (forall j {:trigger q[j]} :: 0 <= j < k ==> Priority(prio, q[j]) <= Priority(prio, q[i]))
            && (forall j {:trigger q[j]} :: 0 <= j < i ==> Priority(prio, q[j]) < Priority(prio, q[i]))
    decreases k
  {
    if k > 1 { BestIsBest(prio, q, k - 1); }
  }
}
