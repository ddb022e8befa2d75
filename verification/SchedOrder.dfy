/** In what order the scheduler serves threads (src/geekos/kthread.c, src/geekos/timer.c). */
module SchedOrder {
  import opened Seqs
  import opened ThreadQueues
  import opened SchedSpec

  // ---------------------------------------------------------------------------------------------
  // The queues after a step
  // ---------------------------------------------------------------------------------------------

  /** Only threads that wait are marked as blocked. */
  ghost predicate Awake(s: Sched) {
    forall t {:trigger s.blocked[t]} :: 0 <= t < |s.blocked| && s.blocked[t] ==> Off(s, t)
  }

  /** The level a thread comes back to that has not waited. */
  function Level(s: Sched, t: int): int {
    if !(0 <= t < |s.prio| && t < |s.level|) then 0
    else if s.prio[t] == PRIORITY_IDLE || s.level[t] >= s.max then s.max - 1
    else s.level[t]
  }

  /** The level a thread comes back to after waiting. */
  function Raised(s: Sched, t: int): int {
    if 0 <= t < |s.prio| && s.prio[t] != PRIORITY_IDLE && Level(s, t) > 0 then Level(s, t) - 1 else Level(s, t)
  }

  ghost predicate LevelsOk(s: Sched) {
    Sizes(s) && forall t {:trigger s.level[t]} :: 0 <= t < |s.level| ==> 0 <= s.level[t] < LEVELS
  }

  /** A thread made runnable is last in its queue. */
  lemma ReadyQueues(s: Sched, t: int)
    requires LevelsOk(s) && Thread(s, t)
    ensures |s.level| == |s.blocked| == |s.prio| && 0 <= NewLevel(s, t) < s.max <= LEVELS == |s.queues|
    ensures var r, l := Ready(s, t), if s.blocked[t] then Raised(s, t) else Level(s, t);
            && (forall k {:trigger Queue(r, k)} :: Queue(r, k) == if k == l then Queue(s, k) + [t] else Queue(s, k))
            && r.prio == s.prio && r.max == s.max && r.cur == s.cur && r.idle == s.idle
            && |r.level| == |s.level| && r.level == s.level[t := l] && r.blocked == s.blocked[t := false]
            && 0 <= l < s.max
  {
  }

  lemma InvLevels(s: Sched)
    requires Inv(s)
    ensures LevelsOk(s) && LevelsOk(Aside(s)) && 0 < s.max <= LEVELS
  {
  }

  /** The thread dispatched leaves its queue, and no other queue changes. */
  lemma DispatchQueues(s: Sched)
    requires Inv(s) && s.cur == -1
    ensures FirstLevel(s, 0) < s.max && Queue(s, FirstLevel(s, 0)) != [] && |s.queues| == LEVELS && 0 < s.max <= LEVELS
    ensures var r, f := Dispatched(s), FirstLevel(s, 0);
            var q := Queue(s, f);
            && r.cur == Choice(s) == q[BestOf(s.prio, q, |q|)]
            && (forall k {:trigger Queue(r, k)} ::
                  Queue(r, k) == if k == f then Without(q, BestOf(s.prio, q, |q|)) else Queue(s, k))
            && r.prio == s.prio && r.max == s.max && r.level == s.level && r.blocked == s.blocked && r.idle == s.idle
  {
    hide Inv, Without, BestOf, FirstLevel;
    DispatchKeeps(s);
    QueueIs(s, FirstLevel(s, 0));
  }

  // ---------------------------------------------------------------------------------------------
  // Only waiting threads are marked as blocked
  // ---------------------------------------------------------------------------------------------

  lemma ReadyAwake(s: Sched, t: int)
    requires LevelsOk(s) && Awake(s) && Off(s, t)
    ensures |s.level| == |s.blocked| == |s.prio| && 0 <= NewLevel(s, t) < s.max <= LEVELS == |s.queues|
    ensures Awake(Ready(s, t))
  {
    ReadyQueues(s, t);
    var r := Ready(s, t);
    hide Ready, LevelsOk;
    forall u | 0 <= u < |r.blocked| && r.blocked[u] ensures Off(r, u) {
      assert s.blocked[u];
      forall l ensures u !in Queue(r, l) { assert u !in Queue(s, l); }
    }
  }

  lemma DispatchAwake(s: Sched)
    requires Inv(s) && Awake(s) && s.cur == -1
    ensures FirstLevel(s, 0) < s.max && Queue(s, FirstLevel(s, 0)) != [] && |s.queues| == LEVELS && 0 < s.max <= LEVELS
    ensures Awake(Dispatched(s))
  {
    DispatchQueues(s);
    var r, f := Dispatched(s), FirstLevel(s, 0);
    var q := Queue(s, f);
    var i := BestOf(s.prio, q, |q|);
    QueueIs(s, f);
    WithoutFacts(q, i);
    hide Inv, Dispatched, Without, BestOf, FirstLevel, Distinct;
    assert q[i] in q;
    forall u | 0 <= u < |r.blocked| && r.blocked[u] ensures Off(r, u) {
      assert s.blocked[u] && u !in Queue(s, f);
      forall l ensures u !in Queue(r, l) { assert u !in Queue(s, l); }
    }
  }

  /** The current thread, put aside, is off all queues. */
  lemma AsideIsOff(s: Sched)
    requires Inv(s) && s.cur != -1
    ensures Off(Aside(s), s.cur)
    ensures Awake(s) ==> Awake(Aside(s)) && 0 <= s.cur < |s.blocked| && !s.blocked[s.cur]
  {
    QueueIs(s, 0);
    forall l ensures s.cur !in Queue(Aside(s), l) { QueueIs(s, l); }
    if Awake(s) {
      forall u | 0 <= u < |s.blocked| && s.blocked[u] ensures Off(Aside(s), u) {
        forall l ensures u !in Queue(Aside(s), l) { assert u !in Queue(s, l); }
      }
    }
  }

  lemma BlockedAwake(s: Sched)
    requires Inv(s) && Awake(s) && s.cur != -1
    ensures 0 <= s.cur < |s.blocked| && Awake(Blocked(s))
  {
    AsideIsOff(s);
    hide Inv;
    var r := Blocked(s);
    forall u | 0 <= u < |r.blocked| && r.blocked[u] ensures Off(r, u) {
      assert u != s.cur ==> s.blocked[u];
      forall l ensures u !in Queue(r, l) { assert u !in Queue(Aside(s), l); }
    }
  }

  lemma DemotedAwake(s: Sched)
    requires Inv(s) && Awake(s) && s.cur != -1
    ensures 0 <= s.cur < |s.level| && Awake(Demoted(s))
  {
    QueueIs(s, 0);
    forall u | 0 <= u < |s.blocked| && s.blocked[u] ensures Off(Demoted(s), u) {
      forall l ensures u !in Queue(Demoted(s), l) { assert u !in Queue(s, l); }
    }
  }

  lemma RoundRobinAwake(s: Sched)
    requires Inv(s) && Awake(s)
    ensures |s.queues| == LEVELS && s.max > 0 && Awake(RoundRobin(s))
  {
    QueueIs(s, 0);
    var r := RoundRobin(s);
    forall u | 0 <= u < |s.blocked| && s.blocked[u] ensures Off(r, u) {
      RoundRobinQueue(s, u);
      forall l ensures u !in Queue(r, l) { assert u !in Queue(s, l); }
    }
  }

  /** Whoever is off all queues stays off when the queues change to feedback. */
  lemma FeedbackOff(s: Sched, u: int)
    requires Inv(s) && Off(s, u)
    ensures |s.queues| == LEVELS && 0 <= s.idle < |s.level| && Off(Feedback(s), u)
  {
    QueueIs(s, 0);
    var r, q := Feedback(s), Queue(s, 0);
    hide Inv, Without, Distinct;
    if s.idle in q { WithoutIn(q, IndexOf(q, s.idle), u); }
    forall l ensures u !in Queue(r, l) { assert u !in Queue(s, l) && u !in q; }
  }

  lemma WithoutIn(q: seq<int>, i: nat, u: int)
    requires i < |q|
    ensures u in Without(q, i) ==> u in q
  {
  }

  lemma FeedbackAwake(s: Sched)
    requires Inv(s) && Awake(s)
    ensures |s.queues| == LEVELS && 0 <= s.idle < |s.level| && Awake(Feedback(s))
  {
    QueueIs(s, 0);
    FeedbackKeeps(s);
    hide Inv, Without, Off;
    forall u | 0 <= u < |s.blocked| && s.blocked[u] ensures Off(Feedback(s), u) { FeedbackOff(s, u); }
  }

  lemma StepAwake(s: Sched, e: Event)
    requires Inv(s) && s.cur != -1 && Legal(s, e) && Awake(s)
    ensures Awake(Step(s, e))
  {
    hide Inv, Ready, Dispatched, RoundRobin, Feedback, Demoted, Blocked, Off, Awake;
    InvLevels(s);
    match e
    case Yield =>
      YieldKeeps(s);
      AsideIsOff(s);
      ReadyAwake(Aside(s), s.cur);
      DispatchKeeps(Ready(Aside(s), s.cur));
      DispatchAwake(Ready(Aside(s), s.cur));
    case Block =>
      BlockKeeps(s);
      BlockedAwake(s);
      DispatchKeeps(Blocked(s));
      DispatchAwake(Blocked(s));
    case Wake(t) =>
      ReadyKeeps(s, t);
      ReadyAwake(s, t);
    case Tick => DemotedKeeps(s); DemotedAwake(s);
    case ToRoundRobin => RoundRobinKeeps(s); RoundRobinAwake(s);
    case ToFeedback => FeedbackKeeps(s); FeedbackAwake(s);
  }

  lemma {:induction false} RunAwake(s: Sched, es: seq<Event>, r: Sched)
    requires Inv(s) && s.cur != -1 && Awake(s) && Reaches(s, es, r)
    ensures Awake(r)
    decreases |es|
  {
    hide Inv, Awake, Legal, Step;
    if es != [] {
      StepKeeps(s, es[0]);
      StepAwake(s, es[0]);
      RunAwake(Step(s, es[0]), es[1..], r);
    }
  }

  lemma BootAwake(prio: seq<int>)
    requires Priorities(prio)
    ensures Awake(Boot(prio))
  {
    BootIs(prio);
    var b := Ready(Bare(prio), IDLE);
    assert forall t :: 0 <= t < |b.blocked| ==> !b.blocked[t];
    assert forall t :: 0 <= t < |Boot(prio).blocked| ==> !Boot(prio).blocked[t];
  }

  // ---------------------------------------------------------------------------------------------
  // What a step does to a thread's place
  // ---------------------------------------------------------------------------------------------

  /** Who yields goes to the back of the queue of his level, and runs on exactly if every other runnable thread is of a
      lower level, or of the same level and a lower priority. */
  lemma YieldsToEquals(s: Sched)
    requires Inv(s) && Awake(s) && s.cur != -1
    ensures var r, c, l := Step(s, Yield), s.cur, Level(s, s.cur);
            && (r.cur == c <==> forall k, t {:trigger t in Queue(s, k)} :: t in Queue(s, k) ==>
                                  k > l || (k == l && Priority(s.prio, t) < Priority(s.prio, c)))
            && (r.cur != c ==> Queue(r, l) != [] && Queue(r, l)[|Queue(r, l)| - 1] == c)
  {
    hide Inv;
    InvLevels(s);
    YieldKeeps(s);
    AsideIsOff(s);
    ReadyQueues(Aside(s), s.cur);
    var m, c, l := Ready(Aside(s), s.cur), s.cur, Level(s, s.cur);
    assert forall k :: Queue(Aside(s), k) == Queue(s, k);
    DispatchIsRight(m);
    DispatchQueues(m);
    hide Ready, Dispatched, LevelsOk, Awake, Off;
    var f := FirstLevel(m, 0);
    var q := Queue(m, f);
    assert Queue(m, l) == Queue(s, l) + [c];
    assert c in Queue(m, l);
    PickedLast(s, m, c, l);
  }

  lemma PickedLast(s: Sched, m: Sched, c: int, l: int)
    requires Inv(m) && m.cur == -1 && m.prio == s.prio && Thread(s, c) && (forall k :: c !in Queue(s, k))
    requires forall k {:trigger Queue(m, k)} :: Queue(m, k) == if k == l then Queue(s, k) + [c] else Queue(s, k)
    requires FirstLevel(m, 0) < m.max && Queue(m, FirstLevel(m, 0)) != [] && |m.queues| == LEVELS && 0 < m.max <= LEVELS
    ensures var r := Dispatched(m);
            && (r.cur == c <==> forall k, t {:trigger t in Queue(s, k)} :: t in Queue(s, k) ==>
                                  k > l || (k == l && Priority(s.prio, t) < Priority(s.prio, c)))
            && (r.cur != c ==> Queue(r, l) != [] && Queue(r, l)[|Queue(r, l)| - 1] == c)
  {
    hide Inv, Dispatched, BestOf, FirstLevel, Without;
    DispatchIsRight(m);
    DispatchQueues(m);
    var f := FirstLevel(m, 0);
    var q := Queue(m, f);
    assert Queue(m, l) == Queue(s, l) + [c];
    assert c in Queue(m, l);
    LastIsBest(s.prio, Queue(s, l), c);
    if f == l {
      forall k, t {:trigger t in Queue(s, k)} | t in Queue(s, k) ensures k >= l { assert t in Queue(m, k); }
      LastStays(q, BestOf(m.prio, q, |q|));
    } else {
      assert q[0] in Queue(s, f);
    }
  }

  /** Added at the back, c is picked exactly if it has the highest priority alone. */
  lemma LastIsBest(prio: seq<int>, p: seq<int>, c: int)
    requires c !in p
    ensures var q := p + [c];
            q[BestOf(prio, q, |q|)] == c <==>
                forall t {:trigger t in p} :: t in p ==> Priority(prio, t) < Priority(prio, c)
  {
    var q := p + [c];
    var i := BestOf(prio, q, |q|);
    BestIsBest(prio, q, |q|);
    hide BestOf, Priority;
    assert q[|p|] == c && (i < |p| ==> q[i] in p);
    if q[i] == c {
      forall t | t in p ensures Priority(prio, t) < Priority(prio, c) {
        var j :| 0 <= j < |p| && p[j] == t;
        assert q[j] == t;
      }
    }
  }

  lemma LastStays(q: seq<int>, i: nat)
    requires i < |q|
    ensures i < |q| - 1 ==> Without(q, i) != [] && Without(q, i)[|q| - 2] == q[|q| - 1]
  {
  }

  /** A quantum used up costs a level, if there is a lower one; Idle, which is always in the lowest, keeps it. */
  lemma QuantumLowers(s: Sched)
    requires Inv(s) && Awake(s) && s.cur != -1
    ensures Inv(Step(s, Tick)) && Step(s, Tick).cur == s.cur
    ensures var r, c := Step(Step(s, Tick), Yield), s.cur;
            0 <= c < |s.prio| == |s.level|
            && var l := if s.prio[c] == PRIORITY_IDLE || s.level[c] + 1 >= s.max then s.max - 1 else s.level[c] + 1;
               r.cur != c ==> Queue(r, l) != [] && Queue(r, l)[|Queue(r, l)| - 1] == c
  {
    hide Inv, Step, Awake, Demoted, RoundRobin, Feedback, Level;
    StepIs(s);
    StepKeeps(s, Tick);
    StepAwake(s, Tick);
    DemotedLevel(s);
    YieldsToEquals(Step(s, Tick));
  }

  lemma DemotedLevel(s: Sched)
    requires Inv(s) && s.cur != -1
    ensures 0 <= s.cur < |s.prio| == |s.level| && Demoted(s).cur == s.cur
    ensures Level(Demoted(s), s.cur)
            == if s.prio[s.cur] == PRIORITY_IDLE || s.level[s.cur] + 1 >= s.max then s.max - 1 else s.level[s.cur] + 1
  {
    hide Inv;
    QueueIs(s, 0);
  }

  /** c waits: it is off all queues, marked, and remembers its level. */
  ghost predicate Sleeper(s: Sched, c: int, level: int) {
    Off(s, c) && c < |s.level| && c < |s.blocked| && s.blocked[c] && s.level[c] == level
  }

  lemma DispatchSleeper(s: Sched, c: int, level: int)
    requires Inv(s) && s.cur == -1 && Sleeper(s, c, level)
    ensures FirstLevel(s, 0) < s.max && Queue(s, FirstLevel(s, 0)) != [] && |s.queues| == LEVELS && 0 < s.max <= LEVELS
    ensures Sleeper(Dispatched(s), c, level) && Dispatched(s).prio == s.prio
  {
    DispatchQueues(s);
    var r, f := Dispatched(s), FirstLevel(s, 0);
    var q := Queue(s, f);
    var i := BestOf(s.prio, q, |q|);
    QueueIs(s, f);
    WithoutFacts(q, i);
    hide Inv, Dispatched, Without, BestOf, FirstLevel, Distinct;
    assert q[i] in q && c !in q;
    forall l ensures c !in Queue(r, l) { assert c !in Queue(s, l); }
  }

  lemma ReadySleeper(s: Sched, t: int, c: int, level: int)
    requires LevelsOk(s) && Thread(s, t) && t != c && Sleeper(s, c, level)
    ensures |s.level| == |s.blocked| == |s.prio| && 0 <= NewLevel(s, t) < s.max <= LEVELS == |s.queues|
    ensures Sleeper(Ready(s, t), c, level) && Ready(s, t).prio == s.prio
  {
    ReadyQueues(s, t);
    var r := Ready(s, t);
    hide Ready, LevelsOk;
    forall l ensures c !in Queue(r, l) { assert c !in Queue(s, l); }
  }

  /** Nothing wakes a thread that waits but a wakeup, and nothing else changes what it remembers. */
  lemma StepSleeper(s: Sched, e: Event, c: int, level: int)
    requires Inv(s) && s.cur != -1 && Legal(s, e) && Sleeper(s, c, level) && e != Wake(c)
    ensures Sleeper(Step(s, e), c, level) && Step(s, e).prio == s.prio
  {
    hide Inv, Ready, Dispatched, RoundRobin, Feedback, Demoted, Off, LevelsOk;
    InvLevels(s);
    SameQueuesSleeper(s, Aside(s), c, level);
    match e
    case Yield =>
      YieldKeeps(s);
      OffCurrent(s, c);
      ReadySleeper(Aside(s), s.cur, c, level);
      DispatchKeeps(Ready(Aside(s), s.cur));
      DispatchSleeper(Ready(Aside(s), s.cur), c, level);
    case Block =>
      BlockKeeps(s);
      OffCurrent(s, c);
      OffThread(s, c);
      DispatchKeeps(Blocked(s));
      SameQueuesSleeper(s, Blocked(s), c, level);
      DispatchSleeper(Blocked(s), c, level);
    case Wake(t) =>
      ReadyKeeps(s, t);
      OffThread(s, t);
      ReadySleeper(s, t, c, level);
    case Tick =>
      DemotedKeeps(s);
      OffCurrent(s, c);
      DemotedSleeper(s, c, level);
    case ToRoundRobin =>
      RoundRobinKeeps(s);
      RoundRobinSleeper(s, c, level);
    case ToFeedback => FeedbackSleeper(s, c, level);
  }

  lemma SameQueuesSleeper(s: Sched, r: Sched, c: int, level: int)
    requires Sleeper(s, c, level) && r.queues == s.queues && r.prio == s.prio && r.level == s.level
    requires |r.blocked| == |s.blocked| && r.blocked[c] == s.blocked[c] && r.cur == -1
    ensures Sleeper(r, c, level)
  {
    forall l ensures c !in Queue(r, l) { assert c !in Queue(s, l); }
  }

  lemma OffCurrent(s: Sched, c: int)
    requires Off(s, c)
    ensures c != s.cur
  {
  }

  lemma DemotedSleeper(s: Sched, c: int, level: int)
    requires 0 <= s.cur < |s.level| && c != s.cur && Sleeper(s, c, level)
    ensures Sleeper(Demoted(s), c, level) && Demoted(s).prio == s.prio
  {
    forall l ensures c !in Queue(Demoted(s), l) { assert c !in Queue(s, l); }
  }

  lemma RoundRobinSleeper(s: Sched, c: int, level: int)
    requires Inv(s) && Sleeper(s, c, level)
    ensures |s.queues| == LEVELS && s.max > 0 && Sleeper(RoundRobin(s), c, level) && RoundRobin(s).prio == s.prio
  {
    QueueIs(s, 0);
    RoundRobinKeeps(s);
    RoundRobinQueue(s, c);
    hide Inv, Gathered;
    forall l ensures c !in Queue(RoundRobin(s), l) { assert c !in Queue(s, l); }
  }

  lemma FeedbackSleeper(s: Sched, c: int, level: int)
    requires Inv(s) && Sleeper(s, c, level)
    ensures |s.queues| == LEVELS && 0 <= s.idle < |s.level| && Sleeper(Feedback(s), c, level)
    ensures Feedback(s).prio == s.prio
  {
    FeedbackOff(s, c);
    FeedbackKeeps(s);
    IdleQueued(s, c);
    hide Inv, Without, Off;
  }

  lemma IdleQueued(s: Sched, c: int)
    requires Inv(s) && Off(s, c)
    ensures s.idle in Queue(s, 0) ==> c != s.idle
  {
  }

  lemma {:induction false} RunSleeper(s: Sched, es: seq<Event>, r: Sched, c: int, level: int)
    requires Inv(s) && s.cur != -1 && Reaches(s, es, r) && Sleeper(s, c, level) && Wake(c) !in es
    ensures Sleeper(r, c, level) && r.prio == s.prio
    decreases |es|
  {
    hide Inv, Sleeper, Legal, Step;
    if es != [] {
      StepKeeps(s, es[0]);
      StepSleeper(s, es[0], c, level);
      RunSleeper(Step(s, es[0]), es[1..], r, c, level);
    }
  }

  lemma BlockSleeper(s: Sched)
    requires Inv(s) && s.cur != -1 && s.cur != s.idle
    ensures 0 <= s.cur < |s.level| && Sleeper(Step(s, Block), s.cur, s.level[s.cur]) && Step(s, Block).prio == s.prio
  {
    hide Inv, Dispatched, Blocked, Sleeper;
    BlockKeeps(s);
    DispatchKeeps(Blocked(s));
    BlockedSleeper(s);
    DispatchSleeper(Blocked(s), s.cur, s.level[s.cur]);
  }

  lemma BlockedSleeper(s: Sched)
    requires Inv(s) && s.cur != -1
    ensures 0 <= s.cur < |s.level| == |s.blocked|
    ensures Sleeper(Blocked(s), s.cur, s.level[s.cur]) && Blocked(s).prio == s.prio
  {
    hide Inv;
    AsideIsOff(s);
    QueueIs(s, 0);
    forall l ensures s.cur !in Queue(Blocked(s), l) { assert s.cur !in Queue(Aside(s), l); }
  }

  /** Who waits is rewarded: whenever it is woken, however long that takes and whatever the policies meanwhile, the
      thread comes back to the end of the queue one level above the one it ran at, if there is one. */
  lemma WaitingRaises(s: Sched, es: seq<Event>, r: Sched)
    requires Inv(s) && s.cur != -1 && s.cur != s.idle
    requires (StepKeeps(s, Block); Reaches(Step(s, Block), es, r))
    requires Wake(s.cur) !in es
    ensures Inv(r) && r.cur != -1 && Legal(r, Wake(s.cur)) && 0 <= s.cur < |s.level|
    ensures var v, was := Step(r, Wake(s.cur)), if s.level[s.cur] < r.max then s.level[s.cur] else r.max - 1;
            var q := Queue(v, if was > 0 then was - 1 else 0);
            q != [] && q[|q| - 1] == s.cur
  {
    hide Inv, Step, Reaches, Sleeper;
    StepKeeps(s, Block);
    RunKeeps(Step(s, Block), es, r);
    BlockSleeper(s);
    RunSleeper(Step(s, Block), es, r, s.cur, s.level[s.cur]);
    WokenPlace(s, r);
  }

  lemma WokenPlace(s: Sched, r: Sched)
    requires Inv(s) && s.cur != -1 && s.cur != s.idle && 0 <= s.cur < |s.level|
    requires Inv(r) && r.cur != -1 && Sleeper(r, s.cur, s.level[s.cur]) && r.prio == s.prio
    ensures Legal(r, Wake(s.cur))
    ensures var v, was := Step(r, Wake(s.cur)), if s.level[s.cur] < r.max then s.level[s.cur] else r.max - 1;
            var q := Queue(v, if was > 0 then was - 1 else 0);
            q != [] && q[|q| - 1] == s.cur
  {
    QueueIs(s, 0);
    InvLevels(r);
    ReadyKeeps(r, s.cur);
    ReadyQueues(r, s.cur);
    hide Inv, Ready;
  }

  // ---------------------------------------------------------------------------------------------
  // First come, first served
  // ---------------------------------------------------------------------------------------------

  /** x is on the queue of level l, and y, if it is there too, is behind it. */
  ghost predicate Ahead(s: Sched, l: int, x: int, y: int) {
    x in Queue(s, l) && (y in Queue(s, l) ==> Before(Queue(s, l), x, y))
  }

  lemma ReadyOrder(s: Sched, t: int, l: int, x: int, y: int)
    requires LevelsOk(s) && Off(s, t) && Ahead(s, l, x, y) && x != y
    ensures |s.level| == |s.blocked| == |s.prio| && 0 <= NewLevel(s, t) < s.max <= LEVELS == |s.queues|
    ensures Ahead(Ready(s, t), l, x, y) && (y in Queue(s, l) ==> y in Queue(Ready(s, t), l))
  {
    ReadyQueues(s, t);
    AppendOrder(Queue(s, l), t, x, y);
    hide Ready, LevelsOk, Before;
  }

  lemma DispatchOrder(s: Sched, l: int, x: int, y: int)
    requires Inv(s) && s.cur == -1 && Ahead(s, l, x, y) && x != y
    requires Priority(s.prio, x) >= Priority(s.prio, y)
    ensures FirstLevel(s, 0) < s.max && Queue(s, FirstLevel(s, 0)) != [] && |s.queues| == LEVELS && 0 < s.max <= LEVELS
    ensures x in Queue(Dispatched(s), l) ==>
              Ahead(Dispatched(s), l, x, y) && (y in Queue(s, l) ==> y in Queue(Dispatched(s), l))
  {
    DispatchQueues(s);
    var f := FirstLevel(s, 0);
    var q := Queue(s, f);
    var i := BestOf(s.prio, q, |q|);
    QueueIs(s, f);
    BestIsBest(s.prio, q, |q|);
    WithoutFacts(q, i);
    WithoutOrder(q, i, x, y);
    if l == f && y in q && x != q[i] {
      var j, k :| 0 <= j < k < |q| && q[j] == x && q[k] == y;
      assert k != i;
      assert q[i] != y by { Differ(q, i, k); }
    }
    hide Inv, Dispatched, BestOf, FirstLevel, Before, Distinct, Without;
  }

  lemma Differ(q: seq<int>, i: nat, k: nat)
    requires Distinct(q) && i < |q| && k < |q| && i != k
    ensures q[i] != q[k]
  {
  }

  lemma OffThread(s: Sched, t: int)
    requires Off(s, t)
    ensures Thread(s, t)
  {
  }

  predicate ChangesPolicy(e: Event) {
    e.ToRoundRobin? || e.ToFeedback?
  }

  /** While x stays on a queue, no thread of at most its priority that is behind it there, or comes later, leaves before
      it or gets ahead of it. */
  lemma StepOrder(s: Sched, e: Event, l: int, x: int, y: int)
    requires Inv(s) && s.cur != -1 && Legal(s, e) && !ChangesPolicy(e) && Ahead(s, l, x, y) && x != y
    requires Priority(s.prio, x) >= Priority(s.prio, y) && x in Queue(Step(s, e), l)
    ensures Step(s, e).prio == s.prio
    ensures Ahead(Step(s, e), l, x, y) && (y in Queue(s, l) ==> y in Queue(Step(s, e), l))
  {
    hide Inv, Ready, Dispatched, Before, LevelsOk, Off;
    InvLevels(s);
    AsideIsOff(s);
    match e
    case Yield =>
      YieldKeeps(s);
      assert Queue(Aside(s), l) == Queue(s, l);
      ReadyOrder(Aside(s), s.cur, l, x, y);
      ReadyQueues(Aside(s), s.cur);
      DispatchKeeps(Ready(Aside(s), s.cur));
      DispatchOrder(Ready(Aside(s), s.cur), l, x, y);
      DispatchQueues(Ready(Aside(s), s.cur));
    case Block =>
      BlockKeeps(s);
      assert Queue(Blocked(s), l) == Queue(s, l);
      DispatchKeeps(Blocked(s));
      DispatchOrder(Blocked(s), l, x, y);
      DispatchQueues(Blocked(s));
    case Wake(t) =>
      ReadyKeeps(s, t);
      ReadyOrder(s, t, l, x, y);
      OffThread(s, t);
      ReadyQueues(s, t);
    case Tick => DemotedKeeps(s);
  }

  /** x stays on the queue of level l, and the policy does not change. */
  ghost predicate StaysQueued(s: Sched, es: seq<Event>, l: int, x: int)
    requires Inv(s) && s.cur != -1
    decreases |es|
  {
    && x in Queue(s, l)
    && (es != [] && Legal(s, es[0]) ==>
          !ChangesPolicy(es[0]) && (StepKeeps(s, es[0]); StaysQueued(Step(s, es[0]), es[1..], l, x)))
  }

  /** So it is over runs: of two threads of one level, the first not of a lower priority, the one that became runnable
      first is dispatched first. */
  lemma {:induction false} FirstComeFirstServed(s: Sched, es: seq<Event>, r: Sched, l: int, x: int, y: int)
    requires Inv(s) && s.cur != -1 && Reaches(s, es, r) && StaysQueued(s, es, l, x) && x != y
    requires Priority(s.prio, x) >= Priority(s.prio, y) && (y in Queue(s, l) ==> Before(Queue(s, l), x, y))
    ensures y in Queue(s, l) ==> y in Queue(r, l)
    ensures y in Queue(r, l) ==> Before(Queue(r, l), x, y)
    decreases |es|
  {
    hide Inv, Step, Legal, Before;
    if es != [] {
      StepKeeps(s, es[0]);
      var t := Step(s, es[0]);
      assert x in Queue(t, l);
      StepOrder(s, es[0], l, x, y);
      FirstComeFirstServed(t, es[1..], r, l, x, y);
    }
  }

  // ---------------------------------------------------------------------------------------------
  // The order after a change of policy
  // ---------------------------------------------------------------------------------------------

  lemma RevOrder(q: seq<int>, x: int, y: int)
    ensures Before(Rev(q), x, y) <==> Before(q, y, x)
  {
    var r, n := Rev(q), |q| - 1;
    if Before(r, x, y) {
      var i, j :| 0 <= i < j < |r| && r[i] == x && r[j] == y;
      assert q[n - j] == y && q[n - i] == x;
    }
    if Before(q, y, x) {
      var i, j :| 0 <= i < j < |q| && q[i] == y && q[j] == x;
      assert r[n - j] == x && r[n - i] == y;
    }
  }

  lemma SumOrder(a: seq<int>, b: seq<int>, x: int, y: int)
    ensures Before(a + b, x, y) <==> Before(a, x, y) || Before(b, x, y) || (x in a && y in b)
  {
    var c := a + b;
    if Before(c, x, y) {
      var i, j :| 0 <= i < j < |c| && c[i] == x && c[j] == y;
      if j < |a| {
        assert a[i] == x && a[j] == y;
      } else {
        assert b[j - |a|] == y;
        if i < |a| { assert a[i] == x; } else { assert b[i - |a|] == x; }
      }
    }
    if Before(a, x, y) {
      var i, j :| 0 <= i < j < |a| && a[i] == x && a[j] == y;
      assert c[i] == x && c[j] == y;
    }
    if Before(b, x, y) {
      var i, j :| 0 <= i < j < |b| && b[i] == x && b[j] == y;
      assert c[|a| + i] == x && c[|a| + j] == y;
    }
    if x in a && y in b {
      var i :| 0 <= i < |a| && a[i] == x;
      var j :| 0 <= j < |b| && b[j] == y;
      assert c[i] == x && c[|a| + j] == y;
    }
  }

  /** Queues of levels 1 to i gathered: lower levels come first, each the other way round, and level 0 comes last, as
      it was. */
  lemma {:induction false} GatheredOrder(s: Sched, i: nat, x: int, y: int)
    requires Inv(s) && i < s.max && x in Gathered(s, i) && y in Gathered(s, i)
    ensures 0 <= x < |s.level| && 0 <= y < |s.level|
    ensures Before(Gathered(s, i), x, y) <==>
            s.level[x] > s.level[y]
            || (s.level[x] == s.level[y] == 0 && Before(Queue(s, 0), x, y))
            || (s.level[x] == s.level[y] > 0 && Before(Queue(s, s.level[x]), y, x))
    decreases i
  {
    hide Inv, Distinct, Before;
    GatheredIs(s, i);
    QueueIs(s, i);
    Levels(s);
    if i > 0 {
      GatheredIs(s, i - 1);
      var q, g := Queue(s, i), Gathered(s, i - 1);
      SumOrder(Rev(q), g, x, y);
      RevOrder(q, x, y);
      RevIn(q, x);
      RevIn(q, y);
      BeforeIn(q, y, x);
      BeforeIn(g, x, y);
      if x in g && y in g { GatheredOrder(s, i - 1, x, y); }
    }
  }

  lemma RevIn(q: seq<int>, x: int)
    ensures x in Rev(q) <==> x in q
  {
    var r := Rev(q);
    if x in q {
      var k :| 0 <= k < |q| && q[k] == x;
      assert r[|q| - 1 - k] == x;
    }
  }

  lemma BeforeIn(q: seq<int>, x: int, y: int)
    ensures Before(q, x, y) ==> x in q && y in q
  {
  }

  /** After Switch_To_RR all runnable threads are in one queue in that order. */
  lemma RoundRobinOrder(s: Sched, x: int, y: int)
    requires Inv(s) && s.cur != -1 && x in Queue(Step(s, ToRoundRobin), 0) && y in Queue(Step(s, ToRoundRobin), 0)
    ensures 0 <= x < |s.level| && 0 <= y < |s.level|
    ensures Before(Queue(Step(s, ToRoundRobin), 0), x, y) <==>
            s.level[x] > s.level[y]
            || (s.level[x] == s.level[y] == 0 && Before(Queue(s, 0), x, y))
            || (s.level[x] == s.level[y] > 0 && Before(Queue(s, s.level[x]), y, x))
  {
    QueueIs(s, 0);
    RoundRobinKeeps(s);
    hide Inv, Before, Gathered;
    GatheredOrder(s, s.max - 1, x, y);
  }

  /** Switch_To_MLF leaves the order of queue 0 as it is, but for Idle, which goes to the lowest queue. */
  lemma FeedbackOrder(s: Sched, x: int, y: int)
    requires Inv(s) && s.cur != -1
    ensures var r := Step(s, ToFeedback);
            && (Before(Queue(r, 0), x, y) <==> Before(Queue(s, 0), x, y) && x != s.idle && y != s.idle)
            && (s.idle in Queue(s, 0) ==> Queue(r, LEVELS - 1) == [s.idle] + Queue(s, LEVELS - 1))
            && r.max == LEVELS
  {
    QueueIs(s, 0);
    FeedbackKeeps(s);
    var q := Queue(s, 0);
    BeforeIn(q, x, y);
    if s.idle in q { WithoutOrder(q, IndexOf(q, s.idle), x, y); }
    hide Inv, Before, Without, Distinct;
  }
}
