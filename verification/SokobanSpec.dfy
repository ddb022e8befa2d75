/** The game that the Sokoban solver (src/user/sokoban.c) searches: cells are numbered row by row, w to a row,
    and a move adds one of the offsets w, -w, 1, -1 to a cell. */
module SokobanSpec {
  import opened Seqs

  datatype Option<T> = None | Some(value: T)

  datatype Level = Level(w: int, walls: seq<bool>, goals: seq<bool>)

  /** A position: the player's cell and the boxes' cells. */
  datatype State = State(player: int, boxes: seq<int>)

  datatype Move = Walk(d: int) | Push(d: int)

  function Offset(lv: Level, i: int): int {
    if i == 0 then lv.w else if i == 1 then -lv.w else if i == 2 then 1 else -1
  }

  predicate IsOffset(lv: Level, d: int) {
    d == lv.w || d == -lv.w || d == 1 || d == -1
  }

  predicate Wall(lv: Level, c: int) {
    !(0 <= c < |lv.walls|) || lv.walls[c]
  }

  predicate Goal(lv: Level, c: int) {
    0 <= c < |lv.goals| && lv.goals[c]
  }

  // A board is read from a string: '#' wall, '.' goal, '@' player, '$' box, '+' player on a goal, '*' box on a goal.

  function LevelOf(w: int, s: string): Level {
    Level(w, seq(|s|, i requires 0 <= i < |s| => s[i] == '#'), seq(|s|, i requires 0 <= i < |s| => s[i] in ".+*"))
  }

  predicate BoxAt(s: string, c: int) {
    0 <= c < |s| && s[c] in "$*"
  }

  /** The boxes among the first n cells, in order. */
  function BoxCells(s: string, n: nat): seq<int>
    requires n <= |s|
  {
    if n == 0 then [] else BoxCells(s, n - 1) + if BoxAt(s, n - 1) then [n - 1] else []
  }

  /** The last player among the first n cells; -1 if there is none. */
  function PlayerCell(s: string, n: nat): int
    requires n <= |s|
  {
    if n == 0 then -1 else if s[n - 1] in "@+" then n - 1 else PlayerCell(s, n - 1)
  }

  /** The boxes read are exactly those of the board, each once, in increasing order. */
  lemma {:induction false} BoxCellsAre(s: string, n: nat)
    requires n <= |s|
    ensures forall c :: c in BoxCells(s, n) <==> BoxAt(s, c) && c < n
    ensures forall i, j :: 0 <= i < j < |BoxCells(s, n)| ==> BoxCells(s, n)[i] < BoxCells(s, n)[j]
  {
    if n > 0 {
      BoxCellsAre(s, n - 1);
      var b := BoxCells(s, n - 1);
      assert forall i :: 0 <= i < |b| ==> b[i] in b;
    }
  }

  lemma {:induction false} Fewer(s: string, n: nat)
    requires n <= |s|
    ensures |BoxCells(s, n)| <= |BoxCells(s, |s|)|
    decreases |s| - n
  {
    if n < |s| { Fewer(s, n + 1); }
  }

  /** Whoever starts in the room and avoids walls stays in the room, and never looks outside the board. */
  ghost predicate Enclosed(lv: Level, room: set<int>) {
    && lv.w > 0 && |lv.goals| == |lv.walls|
    && (forall c {:trigger c in room} :: c in room ==> !Wall(lv, c))
    && (forall c {:trigger Beside(lv, room, c)} :: c in room ==> Beside(lv, room, c))
  }

  ghost predicate Beside(lv: Level, room: set<int>, c: int) {
    forall d {:trigger IsOffset(lv, d)} :: IsOffset(lv, d) ==>
        0 <= c + d < |lv.walls| && (Wall(lv, c + d) || c + d in room)
  }

  ghost predicate Fits(lv: Level, room: set<int>, s: State) {
    && s.player in room && s.player !in s.boxes
    && Distinct(s.boxes) && (forall i {:trigger s.boxes[i]} :: 0 <= i < |s.boxes| ==> s.boxes[i] in room)
  }

  /** Every box is on a goal. */
  predicate Success(lv: Level, boxes: seq<int>) {
    forall i :: 0 <= i < |boxes| ==> Goal(lv, boxes[i])
  }

  function Shoved(boxes: seq<int>, c1: int, c2: int): (r: seq<int>)
    ensures |r| == |boxes| && forall i :: 0 <= i < |r| ==> r[i] == if boxes[i] == c1 then c2 else boxes[i]
  {
    seq(|boxes|, i requires 0 <= i < |boxes| => if boxes[i] == c1 then c2 else boxes[i])
  }

  function PushTo(lv: Level, s: State, d: int): Option<State> {
    var c1, c2 := s.player + d, s.player + d + d;
    if c1 !in s.boxes || Wall(lv, c2) || c2 in s.boxes then None else Some(State(c1, Shoved(s.boxes, c1, c2)))
  }

  function WalkTo(lv: Level, s: State, d: int): Option<State> {
    if Wall(lv, s.player + d) || s.player + d in s.boxes then None else Some(s.(player := s.player + d))
  }

  function Step(lv: Level, s: State, m: Move): Option<State> {
    if !IsOffset(lv, m.d) then None else
    match m
    case Walk(d) => WalkTo(lv, s, d)
    case Push(d) => PushTo(lv, s, d)
  }

  function Run(lv: Level, s: State, ms: seq<Move>): Option<State>
    decreases |ms|
  {
    if ms == [] then Some(s) else
    match Step(lv, s, ms[0])
    case None => None
    case Some(t) => Run(lv, t, ms[1..])
  }

  /** No sequence of walks and pushes leads to success. */
  ghost predicate Hopeless(lv: Level, s: State) {
    forall ms :: var r := Run(lv, s, ms); r.Some? ==> !Success(lv, r.value.boxes)
  }

  /** What a step does to the boxes. */
  lemma StepBoxes(lv: Level, s: State, m: Move)
    requires Step(lv, s, m).Some?
    ensures var t, c1, c2 := Step(lv, s, m).value, s.player + m.d, s.player + m.d + m.d;
            && IsOffset(lv, m.d)
            && (m.Walk? ==> t.boxes == s.boxes)
            && (m.Push? ==> c1 in s.boxes && !Wall(lv, c2) && c2 !in s.boxes && t.boxes == Shoved(s.boxes, c1, c2))
  {
  }

  /** The position read from a board with one player and everything in the room is one the game can be played from. */
  lemma StartFits(w: int, s: string, room: set<int>)
    requires Enclosed(LevelOf(w, s), room) && PlayerCell(s, |s|) in room && s[PlayerCell(s, |s|)] in "@+"
    requires forall c {:trigger BoxAt(s, c)} :: BoxAt(s, c) ==> c in room
    ensures Fits(LevelOf(w, s), room, State(PlayerCell(s, |s|), BoxCells(s, |s|)))
  {
    BoxCellsAre(s, |s|);
    var b := BoxCells(s, |s|);
    forall i | 0 <= i < |b| ensures b[i] in room && b[i] != PlayerCell(s, |s|) { assert b[i] in b; }
  }

  /** The rules, in terms of the board: who is in the room may walk to a cell beside him that has neither wall nor box,
      and push a box beside him to such a cell. */
  lemma MovesAre(lv: Level, room: set<int>, s: State, d: int)
    requires Enclosed(lv, room) && Fits(lv, room, s) && (d == 1 || d == -1 || d == lv.w || d == -lv.w)
    ensures 0 <= s.player + d < |lv.walls|
    ensures var c := s.player + d;
            && (Step(lv, s, Walk(d)).Some? <==> !lv.walls[c] && c !in s.boxes)
            && (Step(lv, s, Walk(d)).Some? ==> Step(lv, s, Walk(d)).value == State(c, s.boxes))
            && (c in s.boxes ==> 0 <= c + d < |lv.walls|)
            && (Step(lv, s, Push(d)).Some? <==> c in s.boxes && !lv.walls[c + d] && c + d !in s.boxes)
            && (Step(lv, s, Push(d)).Some? ==>
                  var t := Step(lv, s, Push(d)).value;
                  t.player == c && |t.boxes| == |s.boxes|
                  && forall i :: 0 <= i < |s.boxes| ==> t.boxes[i] == if s.boxes[i] == c then c + d else s.boxes[i])
  {
    assert Beside(lv, room, s.player) && IsOffset(lv, d);
    if s.player + d in s.boxes {
      var i :| 0 <= i < |s.boxes| && s.boxes[i] == s.player + d;
      assert Beside(lv, room, s.player + d);
    }
  }

  lemma StepFits(lv: Level, room: set<int>, s: State, m: Move)
    requires Enclosed(lv, room) && Fits(lv, room, s) && Step(lv, s, m).Some?
    ensures Fits(lv, room, Step(lv, s, m).value)
  {
    var t := Step(lv, s, m).value;
    assert Beside(lv, room, s.player);
    if m.Push? {
      var c1, c2 := s.player + m.d, s.player + m.d + m.d;
      assert c1 in room;
      assert Beside(lv, room, c1);
      assert c2 in room;
      forall i, j | 0 <= i < j < |t.boxes| ensures t.boxes[i] != t.boxes[j] { assert s.boxes[i] != s.boxes[j]; }
    }
  }

  // ---------------------------------------------------------------------------------------------
  // Dead cells
  // ---------------------------------------------------------------------------------------------

  /** A box pushed onto c along -d came from c + d, with the player on c + 2d. */
  predicate Pull(lv: Level, c: int, d: int) {
    IsOffset(lv, d) && !Wall(lv, c + d) && !Wall(lv, c + d + d)
  }

  /** The set holds the goals, and with a cell every cell from which a box can be pushed there. */
  ghost predicate PullClosed(lv: Level, live: set<int>) {
    && (forall c {:trigger Goal(lv, c)} :: Goal(lv, c) ==> c in live)
    && (forall c, d {:trigger Pull(lv, c, d)} :: c in live && Pull(lv, c, d) ==> c + d in live)
  }

  ghost predicate SomeDead(live: set<int>, boxes: seq<int>) {
    exists i :: 0 <= i < |boxes| && boxes[i] !in live
  }

  /** A pull is a push of a lone box, undone. */
  lemma PullIsPush(lv: Level, c: int, d: int)
    requires !Wall(lv, c) && lv.w > 0
    ensures Pull(lv, c, d) <==>
            !Wall(lv, c + d) && !Wall(lv, c + d + d)
            && Step(lv, State(c + d + d, [c + d]), Push(-d)) == Some(State(c + d, [c]))
  {
    if !Wall(lv, c + d) && !Wall(lv, c + d + d) && IsOffset(lv, d) {
      assert c + d in [c + d] && c !in [c + d];
      assert Shoved([c + d], c + d, c) == [c];
    }
  }

  lemma PullAt(lv: Level, live: set<int>, c: int, d: int)
    requires PullClosed(lv, live) && c in live && Pull(lv, c, d)
    ensures c + d in live
  {
  }

  /** A box on a dead cell stays on dead cells. */
  lemma DeadStaysDead(lv: Level, room: set<int>, live: set<int>, s: State, m: Move)
    requires Enclosed(lv, room) && Fits(lv, room, s) && PullClosed(lv, live) && SomeDead(live, s.boxes)
        && Step(lv, s, m).Some?
    ensures SomeDead(live, Step(lv, s, m).value.boxes)
  {
    var i :| 0 <= i < |s.boxes| && s.boxes[i] !in live;
    DeadBoxStaysDead(lv, room, live, s, m, i);
  }

  lemma DeadBoxStaysDead(lv: Level, room: set<int>, live: set<int>, s: State, m: Move, i: nat)
    requires Enclosed(lv, room) && Fits(lv, room, s) && PullClosed(lv, live) && i < |s.boxes| && s.boxes[i] !in live
        && Step(lv, s, m).Some?
    ensures |Step(lv, s, m).value.boxes| == |s.boxes| && Step(lv, s, m).value.boxes[i] !in live
  {
    StepBoxes(lv, s, m);
    assert s.player in room && s.boxes[i] in room;
    assert !Wall(lv, s.player) && !Wall(lv, s.boxes[i]);
    hide PullClosed, Enclosed, Fits, Step, Wall;
    if m.Push? && s.boxes[i] == s.player + m.d { PushedOntoDead(lv, live, s.player, m.d); }
  }

  lemma PushedOntoDead(lv: Level, live: set<int>, p: int, d: int)
    requires PullClosed(lv, live) && IsOffset(lv, d) && !Wall(lv, p) && !Wall(lv, p + d) && p + d !in live
    ensures p + d + d !in live
  {
    hide PullClosed, Wall;
    if p + d + d in live {
      assert p + d + d + -d == p + d && p + d + d + -d + -d == p;
      PullAt(lv, live, p + d + d, -d);
    }
  }

  lemma {:induction false} DeadIsHopeless(lv: Level, room: set<int>, live: set<int>, s: State, ms: seq<Move>)
    requires Enclosed(lv, room) && Fits(lv, room, s) && PullClosed(lv, live) && SomeDead(live, s.boxes)
        && Run(lv, s, ms).Some?
    ensures !Success(lv, Run(lv, s, ms).value.boxes)
    decreases |ms|
  {
    if ms == [] {
      var i :| 0 <= i < |s.boxes| && s.boxes[i] !in live;
      assert !Goal(lv, s.boxes[i]);
    } else {
      StepFits(lv, room, s, ms[0]);
      DeadStaysDead(lv, room, live, s, ms[0]);
      DeadIsHopeless(lv, room, live, Step(lv, s, ms[0]).value, ms[1..]);
    }
  }

  // ---------------------------------------------------------------------------------------------
  // Frozen boxes
  // ---------------------------------------------------------------------------------------------

  /** Boxes on cells of f, each held in every direction by a wall or by another cell of f. */
  ghost predicate Frozen(lv: Level, f: set<int>, boxes: seq<int>) {
    && (forall c :: c in f ==> c in boxes)
    && (forall c {:trigger c in f} :: c in f ==> HeldAlong(lv, f, c, 1) && HeldAlong(lv, f, c, lv.w))
  }

  ghost predicate HeldAlong(lv: Level, f: set<int>, c: int, e: int) {
    Held(lv, f, c - e) || Held(lv, f, c + e)
  }

  ghost predicate Held(lv: Level, f: set<int>, c: int) {
    Wall(lv, c) || c in f
  }

  lemma FrozenStays(lv: Level, room: set<int>, f: set<int>, s: State, m: Move)
    requires Enclosed(lv, room) && Fits(lv, room, s) && Frozen(lv, f, s.boxes) && Step(lv, s, m).Some?
    ensures Frozen(lv, f, Step(lv, s, m).value.boxes)
  {
    StepBoxes(lv, s, m);
    assert !Wall(lv, s.player);
    hide Enclosed, Fits, Step, Wall;
    var t := Step(lv, s, m).value;
    if m.Push? {
      assert s.player + m.d !in f by { NotFrozen(lv, f, s, m.d); }
      forall c | c in f ensures c in t.boxes {
        var i :| 0 <= i < |s.boxes| && s.boxes[i] == c;
        assert t.boxes[i] == c;
      }
    }
  }

  /** The box in front of a player who can push it is free. */
  lemma NotFrozen(lv: Level, f: set<int>, s: State, d: int)
    requires Frozen(lv, f, s.boxes) && IsOffset(lv, d) && !Wall(lv, s.player) && s.player !in s.boxes
    requires !Wall(lv, s.player + d + d) && s.player + d + d !in s.boxes
    ensures s.player + d !in f
  {
    var c := s.player + d;
    assert c in f ==> HeldAlong(lv, f, c, 1) && HeldAlong(lv, f, c, lv.w);
  }

  lemma {:induction false} FrozenIsHopeless(lv: Level, room: set<int>, f: set<int>, x: int, s: State, ms: seq<Move>)
    requires Enclosed(lv, room) && Fits(lv, room, s) && Frozen(lv, f, s.boxes) && x in f && !Goal(lv, x)
        && Run(lv, s, ms).Some?
    ensures !Success(lv, Run(lv, s, ms).value.boxes)
    decreases |ms|
  {
    if ms != [] {
      StepFits(lv, room, s, ms[0]);
      FrozenStays(lv, room, f, s, ms[0]);
      FrozenIsHopeless(lv, room, f, x, Step(lv, s, ms[0]).value, ms[1..]);
    }
  }

  // ---------------------------------------------------------------------------------------------
  // The patterns the solver looks for
  // ---------------------------------------------------------------------------------------------

  predicate Blocked(lv: Level, boxes: seq<int>, c: int) {
    Wall(lv, c) || c in boxes
  }

  /** Boxes on x and y, neighbours along one axis, not both on goals: two neighbours on the same side are
      blocked, or each box has a wall on a side; the sides are those of the other axis, e away. */
  predicate Stuck(lv: Level, boxes: seq<int>, x: int, y: int, e: int) {
    && !(Goal(lv, x) && Goal(lv, y))
    && (|| (Blocked(lv, boxes, x - e) && Blocked(lv, boxes, y - e))
        || (Blocked(lv, boxes, x + e) && Blocked(lv, boxes, y + e))
        || ((Wall(lv, x - e) || Wall(lv, x + e)) && (Wall(lv, y - e) || Wall(lv, y + e))))
  }

  /** What is tried for the i-th box: the next box in the list beside it, any later box below it. */
  predicate StuckAt(lv: Level, boxes: seq<int>, i: int, j: int) {
    && 0 <= i < j < |boxes|
    && ((j == i + 1 && boxes[j] == boxes[i] + 1 && Stuck(lv, boxes, boxes[i], boxes[j], lv.w))
        || (boxes[j] == boxes[i] + lv.w && Stuck(lv, boxes, boxes[i], boxes[j], 1)))
  }

  ghost predicate SomeStuck(lv: Level, boxes: seq<int>) {
    exists i, j :: StuckAt(lv, boxes, i, j)
  }

  /** Boxes of a square of walls and boxes hold each other; so do two boxes that walls pin to a line. */
  lemma SquareIsFrozen(lv: Level, boxes: seq<int>, x: int, a: int, e: int, s: int)
    requires ((a == 1 && e == lv.w) || (a == lv.w && e == 1)) && (s == e || s == -e)
    requires x in boxes && x + a in boxes && Blocked(lv, boxes, x + s) && Blocked(lv, boxes, x + a + s)
    ensures Frozen(lv, {x, x + a} + Unwalled(lv, x + s) + Unwalled(lv, x + a + s), boxes)
  {
    var f := {x, x + a} + Unwalled(lv, x + s) + Unwalled(lv, x + a + s);
    assert Held(lv, f, x + s) && Held(lv, f, x + a + s) && Held(lv, f, x) && Held(lv, f, x + a);
    hide Wall, Held;
    assert HeldAlong(lv, f, x, a) && HeldAlong(lv, f, x, e);
    assert HeldAlong(lv, f, x + a, a) && HeldAlong(lv, f, x + a, e);
    assert HeldAlong(lv, f, x + s, a) && HeldAlong(lv, f, x + s, e);
    assert HeldAlong(lv, f, x + a + s, a) && HeldAlong(lv, f, x + a + s, e);
    hide HeldAlong;
  }

  function Unwalled(lv: Level, c: int): set<int> {
    if Wall(lv, c) then {} else {c}
  }

  lemma LineIsFrozen(lv: Level, boxes: seq<int>, x: int, a: int, e: int)
    requires (a == 1 && e == lv.w) || (a == lv.w && e == 1)
    requires x in boxes && x + a in boxes
    requires (Wall(lv, x - e) || Wall(lv, x + e)) && (Wall(lv, x + a - e) || Wall(lv, x + a + e))
    ensures Frozen(lv, {x, x + a}, boxes)
  {
    var f := {x, x + a};
    assert Held(lv, f, x) && Held(lv, f, x + a) && HeldAlong(lv, f, x, e) && HeldAlong(lv, f, x + a, e);
    forall c | c in f ensures HeldAlong(lv, f, c, a) && HeldAlong(lv, f, c, e) {}
  }

  lemma StuckIsHopeless(lv: Level, room: set<int>, s: State, x: int, a: int, e: int)
    requires Enclosed(lv, room) && Fits(lv, room, s)
    requires (a == 1 && e == lv.w) || (a == lv.w && e == 1)
    requires x in s.boxes && x + a in s.boxes && Stuck(lv, s.boxes, x, x + a, e)
    ensures Hopeless(lv, s)
  {
    var f := {x, x + a};
    if Blocked(lv, s.boxes, x - e) && Blocked(lv, s.boxes, x + a - e) {
      SquareIsFrozen(lv, s.boxes, x, a, e, -e);
      f := f + Unwalled(lv, x - e) + Unwalled(lv, x + a - e);
    } else if Blocked(lv, s.boxes, x + e) && Blocked(lv, s.boxes, x + a + e) {
      SquareIsFrozen(lv, s.boxes, x, a, e, e);
      f := f + Unwalled(lv, x + e) + Unwalled(lv, x + a + e);
    } else {
      LineIsFrozen(lv, s.boxes, x, a, e);
    }
    forall ms | Run(lv, s, ms).Some? ensures !Success(lv, Run(lv, s, ms).value.boxes) {
      FrozenIsHopeless(lv, room, f, if Goal(lv, x) then x + a else x, s, ms);
    }
  }

  /** What the solver prunes: a box on a dead cell, or a stuck pair. */
  ghost predicate Rejected(lv: Level, live: set<int>, boxes: seq<int>) {
    SomeDead(live, boxes) || SomeStuck(lv, boxes)
  }

  /** Only which cells hold a box matters, not the order of the list. */
  ghost predicate SameCells(a: seq<int>, b: seq<int>) {
    forall c :: c in a <==> c in b
  }

  // What a rejection finds, without the tests that look for it.

  /** Beside cells x and x + a, s away, there is a wall or a box. */
  ghost predicate Side(lv: Level, boxes: seq<int>, x: int, a: int, s: int)
    requires 0 <= x + s < |lv.walls| && 0 <= x + a + s < |lv.walls|
  {
    (lv.walls[x + s] || x + s in boxes) && (lv.walls[x + a + s] || x + a + s in boxes)
  }

  /** Box x and the box right of it (a is 1) or below it (a is w), not both on goals, that hold each other with what is
      beside both of them, or that walls pin to their line. */
  ghost predicate StuckPair(lv: Level, boxes: seq<int>, x: int, a: int, e: int) {
    && x in boxes && x + a in boxes && ((a == 1 && e == lv.w) || (a == lv.w && e == 1))
    && a > 0 && e > 0 && 0 <= x - e && x + a + e < |lv.walls| == |lv.goals|
    && !(lv.goals[x] && lv.goals[x + a])
    && (Side(lv, boxes, x, a, e) || Side(lv, boxes, x, a, -e)
        || ((lv.walls[x - e] || lv.walls[x + e]) && (lv.walls[x + a - e] || lv.walls[x + a + e])))
  }

  /** The search sees such a pair unless its first box is the last in the list, which is never sorted in; or its second
      box is, is beside the first, and should not come last. */
  ghost predicate Seen(lv: Level, boxes: seq<int>, x: int, a: int, e: int) {
    && StuckPair(lv, boxes, x, a, e)
    && var last := boxes[|boxes| - 1];
       x != last && (x + a == last && a != lv.w ==> forall b :: b in boxes ==> b <= last)
  }

  ghost predicate SomeSeen(lv: Level, boxes: seq<int>) {
    exists x, a, e :: Seen(lv, boxes, x, a, e)
  }

  ghost predicate SomePair(lv: Level, boxes: seq<int>) {
    exists x, a, e :: StuckPair(lv, boxes, x, a, e)
  }

  /** With the greatest box last in the list nothing is missed. */
  lemma AllSeen(lv: Level, boxes: seq<int>)
    requires forall b :: b in boxes ==> b <= boxes[|boxes| - 1]
    ensures SomeSeen(lv, boxes) <==> SomePair(lv, boxes)
  {
    if SomePair(lv, boxes) {
      var x, a, e :| StuckPair(lv, boxes, x, a, e);
      assert Seen(lv, boxes, x, a, e);
    }
    if SomeSeen(lv, boxes) {
      var x, a, e :| Seen(lv, boxes, x, a, e);
      assert StuckPair(lv, boxes, x, a, e);
    }
  }

  /** The tests for a pair, made with the map, are the pattern. */
  lemma StuckIsPair(lv: Level, room: set<int>, boxes: seq<int>, x: int, a: int, e: int)
    requires Enclosed(lv, room) && x in room && x + a in room && x in boxes && x + a in boxes
    requires (a == 1 && e == lv.w) || (a == lv.w && e == 1)
    ensures Stuck(lv, boxes, x, x + a, e) <==> StuckPair(lv, boxes, x, a, e)
  {
    assert Beside(lv, room, x) && Beside(lv, room, x + a);
    assert IsOffset(lv, e) && IsOffset(lv, -e);
    assert !Wall(lv, x) && !Wall(lv, x + a);
  }

  /** The boxes but the last in order. */
  ghost predicate OrderedButLast(boxes: seq<int>) {
    forall i, j :: 0 <= i < j < |boxes| - 1 ==> boxes[i] < boxes[j]
  }

  /** The search in the reordered list finds a pair exactly if there is one to be seen. */
  lemma SeenIff(lv: Level, room: set<int>, boxes: seq<int>, first: seq<int>)
    requires Enclosed(lv, room) && Distinct(boxes) && OrderedButLast(boxes)
    requires forall i {:trigger boxes[i]} :: 0 <= i < |boxes| ==> boxes[i] in room
    requires SameCells(boxes, first) && |boxes| == |first| && (boxes != [] ==> boxes[|boxes| - 1] == first[|boxes| - 1])
    ensures SomeStuck(lv, boxes) <==> SomeSeen(lv, first)
  {
    hide Enclosed, Stuck, StuckPair;
    if SomeStuck(lv, boxes) {
      var i, j :| StuckAt(lv, boxes, i, j);
      var vertical := boxes[j] == boxes[i] + lv.w && Stuck(lv, boxes, boxes[i], boxes[j], 1);
      FoundIsSeen(lv, room, boxes, first, i, j, if vertical then lv.w else 1, if vertical then 1 else lv.w);
    }
    if SomeSeen(lv, first) {
      var x, a, e :| Seen(lv, first, x, a, e);
      SeenIsFound(lv, room, boxes, first, x, a, e);
    }
  }

  lemma FoundIsSeen(lv: Level, room: set<int>, boxes: seq<int>, first: seq<int>, i: nat, j: nat, a: int, e: int)
    requires Enclosed(lv, room) && Distinct(boxes) && OrderedButLast(boxes) && i < j < |boxes|
    requires boxes[i] in room && boxes[j] in room && boxes[j] == boxes[i] + a
    requires (a == 1 && e == lv.w && j == i + 1) || (a == lv.w && e == 1)
    requires Stuck(lv, boxes, boxes[i], boxes[j], e)
    requires SameCells(boxes, first) && |boxes| == |first| && boxes[|boxes| - 1] == first[|boxes| - 1]
    ensures SomeSeen(lv, first)
  {
    var x, last := boxes[i], boxes[|boxes| - 1];
    assert boxes[i] in boxes && boxes[j] in boxes;
    StuckIsPair(lv, room, boxes, x, a, e);
    PairAnyOrder(lv, boxes, first, x, a, e);
    hide Enclosed, Stuck, StuckPair;
    if x + a == last && a != lv.w {
      forall b | b in first ensures b <= last {
        assert b in boxes;
        var k :| 0 <= k < |boxes| && boxes[k] == b;
        assert j == |boxes| - 1;
      }
    }
    assert Seen(lv, first, x, a, e);
  }

  lemma SeenIsFound(lv: Level, room: set<int>, boxes: seq<int>, first: seq<int>, x: int, a: int, e: int)
    requires Enclosed(lv, room) && Distinct(boxes) && OrderedButLast(boxes)
    requires forall i {:trigger boxes[i]} :: 0 <= i < |boxes| ==> boxes[i] in room
    requires SameCells(boxes, first) && |boxes| == |first| && (boxes != [] ==> boxes[|boxes| - 1] == first[|boxes| - 1])
    requires Seen(lv, first, x, a, e)
    ensures SomeStuck(lv, boxes)
  {
    PairAnyOrder(lv, first, boxes, x, a, e);
    assert x in boxes && x + a in boxes && a > 0;
    var i :| 0 <= i < |boxes| && boxes[i] == x;
    var j :| 0 <= j < |boxes| && boxes[j] == x + a;
    StuckIsPair(lv, room, boxes, x, a, e);
    hide Enclosed, Stuck, StuckPair;
    var n := |boxes| - 1;
    assert i < n;
    LowerFirst(boxes, i, j);
    if !(a == lv.w && e == 1) {
      forall k | 0 <= k <= n && j == n ensures boxes[k] <= boxes[n] { assert boxes[k] in first; }
      NextInOrder(boxes, i, j);
    }
    assert StuckAt(lv, boxes, i, j);
  }

  lemma LowerFirst(boxes: seq<int>, i: nat, j: nat)
    requires OrderedButLast(boxes) && i < |boxes| - 1 && j < |boxes| && boxes[i] < boxes[j]
    ensures i < j
  {
  }

  lemma NextInOrder(boxes: seq<int>, i: nat, j: nat)
    requires Distinct(boxes) && OrderedButLast(boxes) && i < j < |boxes| && boxes[j] == boxes[i] + 1
    requires j == |boxes| - 1 ==> forall k :: 0 <= k < |boxes| ==> boxes[k] <= boxes[j]
    ensures j == i + 1
  {
    assert boxes[i + 1] <= boxes[j];
  }

  lemma PairAnyOrder(lv: Level, a: seq<int>, b: seq<int>, x: int, d: int, e: int)
    requires SameCells(a, b) && StuckPair(lv, a, x, d, e)
    ensures StuckPair(lv, b, x, d, e)
  {
  }

  /** Pruning loses no solution: here boxes is the list as the solver has reordered it. */
  lemma RejectedIsHopeless(lv: Level, room: set<int>, live: set<int>, s: State, boxes: seq<int>)
    requires Enclosed(lv, room) && Fits(lv, room, s) && PullClosed(lv, live) && Rejected(lv, live, boxes)
        && SameCells(boxes, s.boxes)
    ensures Hopeless(lv, s)
  {
    if SomeDead(live, boxes) {
      DeadAnyOrder(live, boxes, s.boxes);
      forall ms | Run(lv, s, ms).Some? ensures !Success(lv, Run(lv, s, ms).value.boxes) {
        DeadIsHopeless(lv, room, live, s, ms);
      }
    } else {
      var i, j :| StuckAt(lv, boxes, i, j);
      var x, y := boxes[i], boxes[j];
      assert x in boxes && y in boxes;
      hide Enclosed, Fits, PullClosed, Run, Success;
      if y == x + lv.w && Stuck(lv, boxes, x, y, 1) {
        StuckAnyOrder(lv, boxes, s.boxes, x, y, 1);
        StuckIsHopeless(lv, room, s, x, lv.w, 1);
      } else {
        StuckAnyOrder(lv, boxes, s.boxes, x, y, lv.w);
        StuckIsHopeless(lv, room, s, x, 1, lv.w);
      }
    }
  }

  lemma DeadAnyOrder(live: set<int>, a: seq<int>, b: seq<int>)
    requires SameCells(a, b) && SomeDead(live, a)
    ensures SomeDead(live, b)
  {
    var k :| 0 <= k < |a| && a[k] !in live;
    var c := a[k];
    assert c in a && c in b;
    var i :| 0 <= i < |b| && b[i] == c;
  }

  lemma StuckAnyOrder(lv: Level, a: seq<int>, b: seq<int>, x: int, y: int, e: int)
    requires SameCells(a, b) && Stuck(lv, a, x, y, e)
    ensures Stuck(lv, b, x, y, e)
  {
  }

  // ---------------------------------------------------------------------------------------------
  // Which cells are live
  // ---------------------------------------------------------------------------------------------

  /** Pushes ds take a box from c to a goal, were it the only box and the player always where needed. */
  predicate Leads(lv: Level, c: int, ds: seq<int>)
    decreases |ds|
  {
    if ds == [] then Goal(lv, c) else Pull(lv, c + ds[0], -ds[0]) && Leads(lv, c + ds[0], ds[1..])
  }

  ghost predicate OnWay(lv: Level, c: int) {
    exists ds :: Leads(lv, c, ds)
  }

  lemma PullOnWay(lv: Level, c: int, d: int)
    requires OnWay(lv, c) && Pull(lv, c, d)
    ensures OnWay(lv, c + d)
  {
    var ds :| Leads(lv, c, ds);
    var es := [-d] + ds;
    assert es[1..] == ds && c + d + es[0] == c;
    assert Leads(lv, c + d, es);
  }

  /** A pull-closed set holds every cell on the way to a goal. */
  lemma {:induction false} ClosedHoldsOnWay(lv: Level, live: set<int>, c: int, ds: seq<int>)
    requires PullClosed(lv, live) && Leads(lv, c, ds)
    ensures c in live
    decreases |ds|
  {
    if ds != [] {
      ClosedHoldsOnWay(lv, live, c + ds[0], ds[1..]);
      PullAt(lv, live, c + ds[0], -ds[0]);
    }
  }
}
