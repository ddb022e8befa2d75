/** The Sokoban solver's state and the operations on it (src/user/sokoban.c). */
module Sokoban {
  import opened Seqs
  import opened SokobanSpec

  const SPACE := 0
  const WALL := 1
  const BOX := 3

  function What(lv: Level, boxes: seq<int>, c: int): int {
    if Wall(lv, c) then WALL else if c in boxes then BOX else SPACE
  }

  /** The cells hold the walls and the boxes. */
  ghost predicate Shows(lv: Level, cells: seq<int>, boxes: seq<int>) {
    |cells| == |lv.walls| && forall c {:trigger cells[c]} :: 0 <= c < |cells| ==> cells[c] == What(lv, boxes, c)
  }

  ghost function Unmarked(live: seq<bool>): set<int> {
    set i | 0 <= i < |live| && !live[i]
  }

  /** A position as the solver stores it: the player's cell, then the boxes' cells. */
  ghost function StateOf(c: seq<int>): State
    requires |c| > 0
  {
    State(c[0], c[1..])
  }

  ghost predicate SortedPart(c: seq<int>, lo: int, hi: int) {
    forall a, b {:trigger c[a], c[b]} :: 0 <= lo <= a < b < hi <= |c| ==> c[a] <= c[b]
  }

  class Solver {
    ghost const lv: Level
    ghost const room: set<int>
    const w: int
    const board: array<int>
    const goals: array<bool>
    const live: array<bool>
    const tmpmap: array<int>
    const dist: array<int>

    ghost predicate Valid()
      reads this, goals
    {
      && Enclosed(lv, room) && w == lv.w && goals[..] == lv.goals
      && board.Length == goals.Length == live.Length == tmpmap.Length == dist.Length == |lv.walls| <= 0x7fff
      && board != tmpmap && board != dist && tmpmap != dist && live != goals
    }

    ghost function LiveSet(): set<int>
      reads live
    {
      set i | 0 <= i < live.Length && live[i]
    }

    /** parse_board: the tables of the search. The room is any part of the board that walls enclose, with all goals. */
    constructor (w: int, s: string, ghost room: set<int>)
      requires |s| <= 0x7fff && Enclosed(LevelOf(w, s), room)
      requires forall c :: Goal(LevelOf(w, s), c) ==> c in room
      ensures Valid() && lv == LevelOf(w, s) && this.room == room
      ensures Shows(lv, board[..], []) && tmpmap[..] == board[..]
      ensures LiveExactly() && PullClosed(lv, LiveSet())
      ensures fresh(board) && fresh(goals) && fresh(live) && fresh(tmpmap) && fresh(dist)
    {
      lv := LevelOf(w, s);
      this.room := room;
      this.w := w;
      board := new int[|s|](i => SPACE);
      tmpmap := new int[|s|](i => SPACE);
      goals := new bool[|s|](i => false);
      live := new bool[|s|](i => false);
      dist := new int[|s|](i => 0);
      new;
      for i := 0 to |s|
        invariant forall k :: 0 <= k < |s| ==> board[k] == if k < i && s[k] == '#' then WALL else SPACE
        invariant forall k :: 0 <= k < |s| ==> goals[k] == (k < i && s[k] in ".+*")
        invariant forall k :: 0 <= k < |s| ==> !live[k]
      {
        if s[i] == '#' { board[i] := WALL; }
        if s[i] in ".+*" { goals[i] := true; }
      }
      assert goals[..] == lv.goals;
      MarkGoals();
      forall i | 0 <= i < |s| { tmpmap[i] := board[i]; }
    }

    /** The rest of parse_board: the first position. */
    method ReadState(s: string) returns (c: array<int>)
      ensures fresh(c) && c.Length > 0
      ensures StateOf(c[..]) == State(PlayerCell(s, |s|), BoxCells(s, |s|))
    {
      var n := 0;
      for i := 0 to |s|
        invariant n == |BoxCells(s, i)|
      {
        if s[i] == '*' || s[i] == '$' { n := n + 1; }
      }
      c := new int[1 + n](i => -1);
      var j := 0;
      for i := 0 to |s|
        invariant j == |BoxCells(s, i)| <= n && c[1..j + 1] == BoxCells(s, i) && c[0] == PlayerCell(s, i)
      {
        Fewer(s, i + 1);
        if s[i] == '$' || s[i] == '*' {
          j := j + 1;
          c[j] := i;
        } else if s[i] == '@' || s[i] == '+' {
          c[0] := i;
        }
      }
    }

    /** A box is on a cell that is not live. */
    ghost predicate OnDead(boxes: seq<int>)
      reads live
    {
      exists b :: b in boxes && !(0 <= b < live.Length && live[b])
    }

    function Offsets(i: int): int {
      if i == 0 then w else if i == 1 then -w else if i == 2 then 1 else -1
    }

    /** mark_live: marks c and every cell from which a box could be pushed to c. */
    method MarkLive(c: int)
      requires Valid() && Shows(lv, board[..], []) && c in room && OnWay(lv, c)
      modifies live
      ensures MarkedAt(live[..], c) && Marks(lv, room, old(live[..]), live[..], -1)
      decreases |Unmarked(live[..])|, 0
    {
      SameWidth();
      BesideAt(lv, room, board[..], [], c, 1);
      assert forall k :: 0 <= k < 4 ==> Offsets(k) == Offset(lv, k) && IsOffset(lv, Offsets(k));
      hide Valid, Enclosed, Marks, Shows, OnWay, PullsIn, Pull, Unmarked, IsOffset, Offset, Offsets, Goal, Wall, What;
      if live[c] {
        MarksNone(lv, room, live[..]);
        return;
      }
      ghost var was := live[..];
      live[c] := true;
      ghost var first := live[..];
      MarksFirst(lv, room, was, first, c);
      for i := 0 to 4
        invariant MarkedAt(live[..], c) && Marks(lv, room, was, live[..], c)
            && |Unmarked(live[..])| <= |Unmarked(first)|
        invariant forall k {:trigger Offset(lv, k)} :: 0 <= k < i && Pull(lv, c, Offset(lv, k)) ==>
            MarkedAt(live[..], c + Offset(lv, k))
      {
        ghost var mid := live[..];
        MarkTowards(c, Offsets(i));
        MarksCompose(lv, room, was, mid, live[..], c);
        FewerUnmarked(lv, room, mid, live[..], -1);
        MarksStay(lv, room, mid, live[..]);
      }
      AllOffsets(lv, live[..], c);
      MarksDone(lv, room, was, live[..], c);
    }

    /** The body of its loop. */
    method MarkTowards(c: int, d: int)
      requires Valid() && Shows(lv, board[..], []) && c in room && OnWay(lv, c) && IsOffset(lv, d)
      modifies live
      ensures Marks(lv, room, old(live[..]), live[..], -1)
      ensures Pull(lv, c, d) ==> MarkedAt(live[..], c + d)
      decreases |Unmarked(live[..])|, 1
    {
      PullAtCell(lv, room, board[..], c, d);
      MarksNone(lv, room, live[..]);
      hide Enclosed, Marks, Shows, Pull, Unmarked;
      if board[c + d] != WALL && board[c + d * 2] != WALL {
        PullOnWay(lv, c, d);
        MarkLive(c + d);
      }
    }

    /** The marking done while a board is read in: from every goal. */
    method MarkGoals()
      requires Valid() && Shows(lv, board[..], []) && (forall c :: Goal(lv, c) ==> c in room)
      requires forall c {:trigger live[c]} :: 0 <= c < live.Length ==> !live[c]
      modifies live
      ensures LiveExactly()
      ensures PullClosed(lv, LiveSet())
    {
      ghost var was := live[..];
      MarksNone(lv, room, was);
      for i := 0 to live.Length
        invariant Marks(lv, room, was, live[..], -1)
        invariant forall c :: 0 <= c < i && Goal(lv, c) ==> MarkedAt(live[..], c)
      {
        ghost var mid := live[..];
        if goals[i] {
          assert Goal(lv, i);
          assert Leads(lv, i, []);
          MarkLive(i);
          MarksCompose(lv, room, was, mid, live[..], -1);
        }
        MarksStay(lv, room, mid, live[..]);
      }
      AllMarked(lv, room, was, live[..]);
      assert LiveSet() == set c | 0 <= c < |live[..]| && live[..][c];
    }

    /** live marks the cells on the way to a goal, and no others. */
    ghost predicate LiveExactly()
      reads live
    {
      forall c {:trigger c in LiveSet()} :: c in LiveSet() <==> OnWay(lv, c)
    }

    /** One pass of sort_state over boxes 1 to i. */
    method BubblePass(c: array<int>, i: int) returns (swapped: bool)
      requires 1 <= i < c.Length
      modifies c
      ensures PassedTo(old(c[..]), c[..], i, i, swapped)
    {
      ghost var was := c[..];
      swapped := false;
      for j := 1 to i
        invariant PassedTo(was, c[..], i, j, swapped)
      {
        ghost var mid := c[..];
        if c[j] > c[j + 1] {
          swapped := true;
          c[j], c[j + 1] := c[j + 1], c[j];
        }
        PassStep(was, mid, c[..], i, j, swapped);
      }
    }

    /** sort_state: bubble sort, without the last box. */
    method SortState(c: array<int>)
      requires c.Length > 0
      modifies c
      ensures c[0] == old(c[0]) && c[c.Length - 1] == old(c[c.Length - 1])
      ensures SortedPart(c[..], 1, c.Length - 1)
      ensures multiset(c[1..]) == multiset(old(c[1..]))
    {
      ghost var first := c[..];
      var n := c.Length - 1;
      var i := n - 1;
      while i != 0
        invariant n == 0 ==> i == -1
        invariant n > 0 ==> 0 <= i < n
        invariant SortedDownTo(first, c[..], i)
        decreases i + 1
      {
        if i < 0 { break; } // no boxes: the pass below would swap nothing
        ghost var was := c[..];
        hide SortedDownTo, PassedTo;
        var t := BubblePass(c, i);
        PassKeeps(first, was, c[..], i, t);
        if !t { break; }
        i := i - 1;
      }
    }

    /** success. */
    method IsSuccess(c: array<int>) returns (b: bool)
      requires Valid() && c.Length > 0 && (forall k {:trigger c[k]} :: 1 <= k < c.Length ==> c[k] in room)
      ensures b <==> Success(lv, c[1..])
    {
      for i := 1 to c.Length
        invariant forall k {:trigger c[k]} :: 1 <= k < i ==> Goal(lv, c[k])
      {
        assert !Wall(lv, c[i]);
        if !goals[c[i]] {
          assert !Goal(lv, c[1..][i - 1]);
          return false;
        }
      }
      return true;
    }

    /** Writes v into tmpmap at every box. */
    method PutBoxes(c: array<int>, v: int)
      requires Valid() && c.Length > 0 && c != tmpmap && c != board && c != dist
      requires forall x {:trigger x in room} :: x in c[1..] ==> x in room
      modifies tmpmap
      ensures forall x {:trigger tmpmap[x]} :: 0 <= x < tmpmap.Length ==> tmpmap[x] == if x in c[1..] then v
          else old(tmpmap[x])
    {
      for i := 1 to c.Length
        invariant forall x {:trigger tmpmap[x]} :: 0 <= x < tmpmap.Length ==> tmpmap[x] == if x in c[1..i] then v
            else old(tmpmap[x])
      {
        assert c[i] == c[1..][i - 1];
        assert c[i] in room && !Wall(lv, c[i]);
        tmpmap[c[i]] := v;
        assert c[1..i + 1] == c[1..i] + [c[i]];
      }
      assert c[1..c.Length] == c[1..];
    }

    /** The two tests made for a pair of boxes, with the sides e away. */
    method PairStuck(ghost boxes: seq<int>, x: int, y: int, e: int) returns (b: bool)
      requires Valid() && Shows(lv, tmpmap[..], boxes) && x in room && y in room && IsOffset(lv, e)
      ensures b <==> Stuck(lv, boxes, x, y, e)
    {
      SidesAt(lv, room, tmpmap[..], boxes, x, e);
      SidesAt(lv, room, tmpmap[..], boxes, y, e);
      hide Enclosed, Shows, Wall, Blocked;
      if goals[x] && goals[y] { return false; }
      if (tmpmap[x - e] >= WALL && tmpmap[y - e] >= WALL) || (tmpmap[x + e] >= WALL && tmpmap[y + e] >= WALL) {
        return true;
      }
      if (tmpmap[x - e] == WALL || tmpmap[x + e] == WALL) && (tmpmap[y - e] == WALL || tmpmap[y + e] == WALL) {
        return true;
      }
      return false;
    }

    /** The search for a stuck pair: first the box after box i in the list, then every later box. */
    method ScanFrom(c: array<int>, ghost boxes: seq<int>, i: int) returns (ret: bool)
      requires Valid() && 1 <= i < c.Length - 1 && boxes == c[1..] && Shows(lv, tmpmap[..], boxes)
      requires forall k {:trigger c[k]} :: 1 <= k < c.Length ==> c[k] in room
      ensures ret ==> SomeStuck(lv, boxes)
      ensures !ret ==> NoneAt(lv, boxes, i - 1)
    {
      SameWidth();
      hide Valid, Enclosed, Shows, Stuck;
      var x, y := c[i], c[i + 1];
      assert boxes[i - 1] == x && boxes[i] == y;
      if y == x + 1 {
        ret := PairStuck(boxes, x, y, w);
        if ret {
          assert StuckAt(lv, boxes, i - 1, i);
          return;
        }
      }
      for j := i + 1 to c.Length
        invariant forall b {:trigger StuckAt(lv, boxes, i - 1, b)} :: b < j - 1 ==> !StuckAt(lv, boxes, i - 1, b)
      {
        y := c[j];
        assert boxes[j - 1] == y;
        if y == x + w {
          ret := PairStuck(boxes, x, y, 1);
          if ret {
            assert StuckAt(lv, boxes, i - 1, j - 1);
            return;
          }
        }
      }
      return false;
    }

    method Scan(c: array<int>) returns (ret: bool)
      requires Valid() && c.Length > 0 && Shows(lv, tmpmap[..], c[1..])
      requires forall k {:trigger c[k]} :: 1 <= k < c.Length ==> c[k] in room
      ensures ret <==> SomeStuck(lv, c[1..])
    {
      hide Valid, Shows, NoneAt;
      ghost var boxes := c[1..];
      var i := 1;
      while i < c.Length - 1
        invariant 1 <= i
        invariant forall a {:trigger NoneAt(lv, boxes, a)} :: 0 <= a < i - 1 ==> NoneAt(lv, boxes, a)
      {
        ret := ScanFrom(c, boxes, i);
        if ret { return; }
        i := i + 1;
      }
      NoPairsBeyond(lv, boxes, i - 1);
      return false;
    }

    lemma SameWidth()
      requires Valid()
      ensures w == lv.w && Enclosed(lv, room) && IsOffset(lv, w) && IsOffset(lv, 1)
    {
    }

    /** The second half of deadlocked: the boxes get reordered, and shown in tmpmap during the search. */
    method SearchPairs(c: array<int>) returns (ret: bool)
      requires Valid() && c.Length > 0 && Fits(lv, room, StateOf(c[..])) && Shows(lv, tmpmap[..], [])
      requires c != board && c != tmpmap && c != dist
      modifies c, tmpmap
      ensures c[0] == old(c[0]) && c[c.Length - 1] == old(c[c.Length - 1])
      ensures SortedPart(c[..], 1, c.Length - 1) && multiset(c[1..]) == multiset(old(c[1..]))
      ensures tmpmap[..] == old(tmpmap[..])
      ensures ret <==> SomeStuck(lv, c[1..])
    {
      ghost var s := StateOf(c[..]);
      SortState(c);
      SameMembers(room, c[1..], s.boxes);
      ghost var map0 := tmpmap[..];
      PutBoxes(c, BOX);
      ret := Scan(c);
      PutBoxes(c, SPACE);
      assert tmpmap[..] == map0;
    }

    /** deadlocked: whether a box is on a dead cell or two boxes are stuck. The boxes get reordered; tmpmap is
        left as it was. */
    method Deadlocked(c: array<int>) returns (ret: bool)
      requires Valid() && PullClosed(lv, LiveSet()) && c.Length > 0 && Fits(lv, room, StateOf(c[..]))
          && Shows(lv, tmpmap[..], [])
      requires c != board && c != tmpmap && c != dist
      modifies c, tmpmap
      ensures c[0] == old(c[0]) && multiset(c[1..]) == multiset(old(c[1..]))
      ensures tmpmap[..] == old(tmpmap[..])
      ensures ret <==> OnDead(old(c[1..])) || SomeSeen(lv, old(c[1..]))
      ensures (forall b :: b in old(c[1..]) ==> b <= old(c[c.Length - 1])) ==>
                (ret <==> OnDead(old(c[1..])) || SomePair(lv, old(c[1..])))
      ensures ret <==> Rejected(lv, LiveSet(), c[1..])
      ensures ret ==> Hopeless(lv, old(StateOf(c[..])))
    {
      ghost var s := StateOf(c[..]);
      for i := 1 to c.Length
        invariant c[..] == old(c[..]) && tmpmap[..] == old(tmpmap[..])
        invariant forall k {:trigger c[k]} :: 1 <= k < i ==> c[k] in LiveSet()
      {
        assert c[i] == s.boxes[i - 1];
        BesideAt(lv, room, tmpmap[..], [], c[i], 1);
        if !live[c[i]] {
          assert c[1..][i - 1] !in LiveSet();
          RejectedIsHopeless(lv, room, LiveSet(), s, c[1..]);
          return true;
        }
      }
      assert !SomeDead(LiveSet(), s.boxes);
      hide Enclosed, Fits, PullClosed, SomeSeen, SomePair, SomeStuck, Shows, SortedPart, Hopeless;
      ret := SearchPairs(c);
      SearchDecides(lv, room, s, c[..]);
      if SomeDead(LiveSet(), c[1..]) { DeadAnyOrder(LiveSet(), c[1..], s.boxes); }
      if ret { RejectedIsHopeless(lv, room, LiveSet(), s, c[1..]); }
    }

    /** push_me: the position after a push, or null if there is nothing to push or no room for it. */
    method PushMe(c: array<int>, dc: int) returns (n: array?<int>)
      requires Valid() && c.Length > 0 && Fits(lv, room, StateOf(c[..])) && Shows(lv, board[..], c[1..])
          && IsOffset(lv, dc)
      ensures n != null <==> var to := c[0] + dc + dc;
              c[0] + dc in c[1..] && 0 <= to < |lv.walls| && !lv.walls[to] && to !in c[1..]
      ensures n != null ==> n.Length == c.Length && n[0] == c[0] + dc
      ensures n != null ==> forall k :: 1 <= k < n.Length ==> n[k] == if c[k] == c[0] + dc then c[0] + dc + dc else c[k]
      ensures n == null <==> PushTo(lv, StateOf(c[..]), dc) == None
      ensures n != null ==> fresh(n) && n.Length == c.Length && PushTo(lv, StateOf(c[..]), dc) == Some(StateOf(n[..]))
    {
      var c1 := c[0] + dc;
      BesideAt(lv, room, board[..], c[1..], c[0], dc);
      if board[c1] != BOX { return null; }
      var c2 := c1 + dc;
      BesideAt(lv, room, board[..], c[1..], c1, dc);
      if board[c2] >= WALL { return null; }
      n := new int[c.Length];
      for i := 1 to c.Length
        invariant forall k {:trigger n[k]} :: 1 <= k < i ==> n[k] == if c[k] == c1 then c2 else c[k]
      {
        n[i] := if c[i] == c1 then c2 else c[i];
      }
      n[0] := c1;
      assert n[1..] == Shoved(c[1..], c1, c2);
    }
  }

  lemma MarksNone(lv: Level, room: set<int>, now: seq<bool>)
    ensures Marks(lv, room, now, now, -1)
  {
  }

  predicate MarkedAt(now: seq<bool>, x: int) {
    0 <= x < |now| && now[x]
  }

  /** What the map shows beside cell c of the room, and whether that is the room. */
  lemma BesideAt(lv: Level, room: set<int>, cells: seq<int>, boxes: seq<int>, c: int, d: int)
    requires Enclosed(lv, room) && Shows(lv, cells, boxes) && c in room && IsOffset(lv, d)
    ensures 0 <= c < |cells| == |lv.walls| && cells[c] == What(lv, boxes, c) && !Wall(lv, c)
    ensures 0 <= c + d < |cells| && cells[c + d] == What(lv, boxes, c + d) && (c + d in room <==> !Wall(lv, c + d))
  {
    assert Beside(lv, room, c);
  }

  lemma SidesAt(lv: Level, room: set<int>, cells: seq<int>, boxes: seq<int>, c: int, e: int)
    requires Enclosed(lv, room) && Shows(lv, cells, boxes) && c in room && IsOffset(lv, e)
    ensures 0 <= c < |cells| && 0 <= c - e < |cells| && 0 <= c + e < |cells|
    ensures (cells[c - e] >= WALL <==> Blocked(lv, boxes, c - e)) && (cells[c - e] == WALL <==> Wall(lv, c - e))
    ensures (cells[c + e] >= WALL <==> Blocked(lv, boxes, c + e)) && (cells[c + e] == WALL <==> Wall(lv, c + e))
  {
    BesideAt(lv, room, cells, boxes, c, e);
    BesideAt(lv, room, cells, boxes, c, -e);
    hide Enclosed, Shows;
  }

  lemma PullAtCell(lv: Level, room: set<int>, cells: seq<int>, c: int, d: int)
    requires Enclosed(lv, room) && Shows(lv, cells, []) && c in room && IsOffset(lv, d)
    ensures 0 <= c + d < |cells|
    ensures cells[c + d] != WALL ==> c + d in room && 0 <= c + d * 2 < |cells|
    ensures Pull(lv, c, d) <==> cells[c + d] != WALL && cells[c + d * 2] != WALL
  {
    BesideAt(lv, room, cells, [], c, d);
    if !Wall(lv, c + d) { BesideAt(lv, room, cells, [], c + d, d); }
  }

  lemma MarksFirst(lv: Level, room: set<int>, was: seq<bool>, first: seq<bool>, c: int)
    requires 0 <= c < |was| && !was[c] && first == was[c := true] && c in room && OnWay(lv, c)
    ensures Marks(lv, room, was, first, c) && Marks(lv, room, first, first, c)
    ensures |Unmarked(first)| < |Unmarked(was)|
  {
    assert Unmarked(first) == Unmarked(was) - {c};
  }

  lemma MarksDone(lv: Level, room: set<int>, was: seq<bool>, now: seq<bool>, c: int)
    requires Marks(lv, room, was, now, c) && PullsIn(lv, now, c)
    ensures Marks(lv, room, was, now, -1)
  {
  }

  /** What sort_state leaves is in order exactly when the last box was nowhere exceeded. */
  lemma SortsAllIff(was: seq<int>, now: seq<int>)
    requires |was| == |now| > 1 && now[|now| - 1] == was[|was| - 1]
    requires SortedPart(now, 1, |now| - 1) && multiset(now[1..]) == multiset(was[1..])
    ensures SortedPart(now, 1, |now|) <==> forall k :: 1 <= k < |was| ==> was[k] <= was[|was| - 1]
  {
    var n := |was| - 1;
    if SortedPart(now, 1, |now|) {
      forall k | 1 <= k < |was| ensures was[k] <= was[n] {
        assert was[1..][k - 1] in multiset(now[1..]);
        var i :| 0 <= i < n && now[1..][i] == was[k];
        assert now[i + 1] == was[k];
      }
    }
    if forall k :: 1 <= k < |was| ==> was[k] <= was[n] {
      forall a | 1 <= a < |now| ensures now[a] <= now[n] {
        assert now[1..][a - 1] in multiset(was[1..]);
        var i :| 0 <= i < n && was[1..][i] == now[a];
        assert was[i + 1] == now[a];
      }
    }
  }

  /** Boxes 3, 1, 2 come out as 1, 3, 2. */
  lemma SortMisses(now: seq<int>)
    requires |now| == 4 && now[3] == 2 && SortedPart(now, 1, 3) && multiset(now[1..]) == multiset([3, 1, 2])
    ensures now[1..] == [1, 3, 2] && !SortedPart(now, 1, 4)
  {
    assert 3 in [3, 1, 2] && 1 in [3, 1, 2];
    assert 3 in multiset(now[1..]) && 1 in multiset(now[1..]);
    assert 3 in now[1..] && 1 in now[1..];
    assert now[1..] == [now[1], now[2], 2];
  }

  lemma NoPairsBeyond(lv: Level, boxes: seq<int>, n: int)
    requires n >= |boxes| - 1 && forall a {:trigger NoneAt(lv, boxes, a)} :: 0 <= a < n ==> NoneAt(lv, boxes, a)
    ensures !SomeStuck(lv, boxes)
  {
    forall a, b ensures !StuckAt(lv, boxes, a, b) { assert 0 <= a < n ==> NoneAt(lv, boxes, a); }
  }

  ghost predicate NoneAt(lv: Level, boxes: seq<int>, a: int) {
    forall b {:trigger StuckAt(lv, boxes, a, b)} :: !StuckAt(lv, boxes, a, b)
  }

  lemma SameMembers(room: set<int>, a: seq<int>, b: seq<int>)
    requires multiset(a) == multiset(b) && forall i {:trigger b[i]} :: 0 <= i < |b| ==> b[i] in room
    ensures SameCells(a, b)
    ensures forall x {:trigger x in room} :: x in a ==> x in room
    ensures forall i {:trigger a[i]} :: 0 <= i < |a| ==> a[i] in room
  {
    forall x ensures x in a <==> x in b { assert x in a <==> x in multiset(a); assert x in b <==> x in multiset(b); }
  }

  /** What the search finds in the reordered list, in terms of the list before. */
  lemma SearchDecides(lv: Level, room: set<int>, s: State, now: seq<int>)
    requires Enclosed(lv, room) && Fits(lv, room, s) && |now| == |s.boxes| + 1
    requires SortedPart(now, 1, |now| - 1) && multiset(now[1..]) == multiset(s.boxes)
    requires s.boxes != [] ==> now[|now| - 1] == s.boxes[|s.boxes| - 1]
    ensures SomeStuck(lv, now[1..]) <==> SomeSeen(lv, s.boxes)
    ensures s.boxes != [] && (forall b :: b in s.boxes ==> b <= s.boxes[|s.boxes| - 1]) ==>
              (SomeSeen(lv, s.boxes) <==> SomePair(lv, s.boxes))
    ensures s.boxes == [] ==> !SomeSeen(lv, s.boxes) && !SomePair(lv, s.boxes)
    ensures SameCells(now[1..], s.boxes)
  {
    var boxes := now[1..];
    SameMembers(room, boxes, s.boxes);
    StillApart(boxes, s.boxes);
    forall i, j | 0 <= i < j < |boxes| - 1 ensures boxes[i] < boxes[j] {
      assert now[i + 1] <= now[j + 1];
    }
    SeenIff(lv, room, boxes, s.boxes);
    if s.boxes != [] && forall b :: b in s.boxes ==> b <= s.boxes[|s.boxes| - 1] { AllSeen(lv, s.boxes); }
    if s.boxes == [] { NothingSeen(lv); }
  }

  lemma NothingSeen(lv: Level)
    ensures !SomeSeen(lv, []) && !SomePair(lv, [])
  {
  }

  lemma StillApart(a: seq<int>, b: seq<int>)
    requires multiset(a) == multiset(b) && Distinct(b)
    ensures Distinct(a)
  {
    forall i, j | 0 <= i < j < |a| ensures a[i] != a[j] {
      if a[i] == a[j] { TwiceIn(a, i, j); OnceIn(b, a[i]); }
    }
  }

  lemma TwiceIn(a: seq<int>, i: nat, j: nat)
    requires i < j < |a| && a[i] == a[j]
    ensures multiset(a)[a[i]] >= 2
  {
    assert a == a[..j] + [a[j]] + a[j + 1..];
    assert a[..j][i] == a[i];
  }

  lemma {:induction false} OnceIn(b: seq<int>, x: int)
    requires Distinct(b)
    ensures multiset(b)[x] <= 1
  {
    if b != [] {
      assert b == [b[0]] + b[1..];
      OnceIn(b[1..], x);
      assert x in multiset(b[1..]) <==> x in b[1..];
    }
  }

  /** A pass over boxes 1 to i has come to box j: none before it is greater, and only these have moved. */
  ghost predicate PassedTo(was: seq<int>, now: seq<int>, i: int, j: int, swapped: bool) {
    && 1 <= j <= i < |was| == |now|
    && (forall a {:trigger now[a]} :: 1 <= a < j ==> now[a] <= now[j])
    && now[..1] == was[..1] && now[i + 1..] == was[i + 1..]
    && multiset(now[1..i + 1]) == multiset(was[1..i + 1])
    && (!swapped ==> SortedPart(now, 1, j + 1))
  }

  lemma PassStep(was: seq<int>, mid: seq<int>, now: seq<int>, i: int, j: int, swapped: bool)
    requires j < i && exists sw :: PassedTo(was, mid, i, j, sw) && (sw ==> swapped)
    requires if mid[j] > mid[j + 1] then swapped && now == mid[j := mid[j + 1]][j + 1 := mid[j]] else now == mid
    ensures PassedTo(was, now, i, j + 1, swapped)
  {
    hide SortedPart;
    if now != mid { SwapKeeps(mid, now, 1, i + 1, j); }
    if !swapped { OrderStep(mid, j); }
  }

  lemma OrderStep(c: seq<int>, j: int)
    requires 1 <= j < |c| - 1 && SortedPart(c, 1, j + 1) && c[j] <= c[j + 1]
    ensures SortedPart(c, 1, j + 2)
  {
    forall a, b | 1 <= a < b < j + 2 ensures c[a] <= c[b] { assert a < j ==> c[a] <= c[j]; }
  }

  lemma SwapKeeps(mid: seq<int>, now: seq<int>, lo: int, hi: int, j: int)
    requires 0 <= lo <= j < j + 1 < hi <= |mid| && now == mid[j := mid[j + 1]][j + 1 := mid[j]]
    ensures now[..lo] == mid[..lo] && now[hi..] == mid[hi..] && multiset(now[lo..hi]) == multiset(mid[lo..hi])
  {
    assert now[lo..hi] == mid[lo..hi][j - lo := mid[lo..hi][j + 1 - lo]][j + 1 - lo := mid[lo..hi][j - lo]];
  }

  /** Beyond box i the boxes before the last are in order, and none before is greater. */
  ghost predicate SortedDownTo(first: seq<int>, now: seq<int>, i: int) {
    && |first| == |now| > 0 && now[0] == first[0] && now[|now| - 1] == first[|now| - 1]
        && multiset(now[1..]) == multiset(first[1..])
    && SortedPart(now, i + 1, |now| - 1)
    && forall a, b {:trigger now[a], now[b]} :: 1 <= a <= i < b < |now| - 1 ==> now[a] <= now[b]
  }

  lemma PassMembers(was: seq<int>, now: seq<int>, i: int, a: int) returns (k: int)
    requires 1 <= a <= i < |was| == |now| && multiset(now[1..i + 1]) == multiset(was[1..i + 1])
    ensures 1 <= k <= i && was[k] == now[a]
  {
    assert now[1..i + 1][a - 1] == now[a];
    assert now[a] in multiset(was[1..i + 1]);
    var j :| 0 <= j < i && was[1..i + 1][j] == now[a];
    k := j + 1;
  }

  lemma PassKeeps(first: seq<int>, was: seq<int>, now: seq<int>, i: int, swapped: bool)
    requires 1 <= i < |was| - 1 && SortedDownTo(first, was, i) && PassedTo(was, now, i, i, swapped)
    ensures SortedDownTo(first, now, i - 1) && (!swapped ==> SortedDownTo(first, now, 0))
  {
    var n := |was| - 1;
    assert now[1..] == now[1..i + 1] + now[i + 1..] && was[1..] == was[1..i + 1] + was[i + 1..];
    assert multiset(now[1..]) == multiset(was[1..]);
    assert now[0] == now[..1][0] == was[..1][0];
    forall b | i < b < |was| ensures now[b] == was[b] { assert now[b] == now[i + 1..][b - i - 1]; }
    forall a, b | 1 <= a <= i < b < n ensures now[a] <= now[b] { var k := PassMembers(was, now, i, a); }
  }

  lemma AllMarked(lv: Level, room: set<int>, was: seq<bool>, now: seq<bool>)
    requires Marks(lv, room, was, now, -1) && |now| == |lv.walls| == |lv.goals|
        && (forall c {:trigger was[c]} :: 0 <= c < |was| ==> !was[c])
    requires forall c :: 0 <= c < |now| && Goal(lv, c) ==> MarkedAt(now, c)
    ensures var live := set i | 0 <= i < |now| && now[i];
            PullClosed(lv, live) && forall c {:trigger c in live} :: c in live <==> OnWay(lv, c)
  {
    var live := set i | 0 <= i < |now| && now[i];
    forall c, d | c in live && Pull(lv, c, d) ensures c + d in live { assert PullsIn(lv, now, c); }
    forall c | Goal(lv, c) ensures c in live { assert MarkedAt(now, c); }
    forall c | OnWay(lv, c) ensures c in live {
      var ds :| Leads(lv, c, ds);
      ClosedHoldsOnWay(lv, live, c, ds);
    }
  }

  /** From was to now only live cells of the room are newly marked, and each but c with all its pulls. */
  ghost predicate Marks(lv: Level, room: set<int>, was: seq<bool>, now: seq<bool>, c: int) {
    && |was| == |now|
    && (forall x {:trigger now[x]} :: 0 <= x < |now| && was[x] ==> now[x])
    && (forall x {:trigger now[x]} :: 0 <= x < |now| && now[x] && !was[x] ==>
        x in room && OnWay(lv, x) && (x != c ==> PullsIn(lv, now, x)))
  }

  ghost predicate PullsIn(lv: Level, now: seq<bool>, x: int) {
    forall d {:trigger Pull(lv, x, d)} :: Pull(lv, x, d) ==> 0 <= x + d < |now| && now[x + d]
  }

  lemma MarksCompose(lv: Level, room: set<int>, a: seq<bool>, b: seq<bool>, c: seq<bool>, x: int)
    requires Marks(lv, room, a, b, x) && Marks(lv, room, b, c, -1)
    ensures Marks(lv, room, a, c, x)
  {
    forall y | 0 <= y < |c| && c[y] && !a[y] && y != x ensures PullsIn(lv, c, y) {
      if b[y] { assert PullsIn(lv, b, y); }
    }
    hide PullsIn;
  }

  lemma AllOffsets(lv: Level, now: seq<bool>, c: int)
    requires forall k {:trigger Offset(lv, k)} :: 0 <= k < 4 && Pull(lv, c, Offset(lv, k)) ==>
        MarkedAt(now, c + Offset(lv, k))
    ensures PullsIn(lv, now, c)
  {
    forall d | Pull(lv, c, d) ensures MarkedAt(now, c + d) {
      assert d in [Offset(lv, 0), Offset(lv, 1), Offset(lv, 2), Offset(lv, 3)];
    }
  }

  lemma MarksStay(lv: Level, room: set<int>, a: seq<bool>, b: seq<bool>)
    requires a == b || Marks(lv, room, a, b, -1)
    ensures forall x {:trigger MarkedAt(b, x)} :: MarkedAt(a, x) ==> MarkedAt(b, x)
  {
  }

  lemma FewerUnmarked(lv: Level, room: set<int>, a: seq<bool>, b: seq<bool>, c: int)
    requires Marks(lv, room, a, b, c)
    ensures |Unmarked(b)| <= |Unmarked(a)|
  {
    Subset(Unmarked(b), Unmarked(a));
  }

  lemma Subset(a: set<int>, b: set<int>)
    requires a <= b
    ensures |a| <= |b|
  {
    assert b == a + (b - a);
  }
}
