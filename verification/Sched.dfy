/** The run queues (src/geekos/kthread.c, src/geekos/timer.c): four feedback levels, or one in round robin. */
module SchedSpec {
  import opened Seqs
  import opened ThreadQueues

  const LEVELS := 4
  const PRIORITY_IDLE := 0

  /** max: MAX_QUEUE_LEVEL. level: currentReadyQueue. cur: the current thread, -1 between two. */
  datatype Sched = Sched(max: int, queues: seq<seq<int>>, level: seq<int>, blocked: seq<bool>, prio: seq<int>,
      idle: int, cur: int)

  function Queue(s: Sched, l: int): seq<int> {
    if 0 <= l < |s.queues| then s.queues[l] else []
  }

  predicate Thread(s: Sched, t: int) {
    0 <= t < |s.prio|
  }

  ghost predicate Sizes(s: Sched) {
    && |s.queues| == LEVELS && (s.max == 1 || s.max == LEVELS) && |s.level| == |s.blocked| == |s.prio|
    && (s.cur == -1 || Thread(s, s.cur)) && Thread(s, s.idle) && s.prio[s.idle] == PRIORITY_IDLE
    && forall t {:trigger s.prio[t]} :: Thread(s, t) && t != s.idle ==> s.prio[t] > PRIORITY_IDLE
  }

  /** Whoever is on the queue of a level is there once, has that level, and is not current; the level is in use. */
  ghost predicate QueueOk(s: Sched, l: int) {
    && Distinct(Queue(s, l))
    && forall t {:trigger t in Queue(s, l)} :: t in Queue(s, l) ==>
        Thread(s, t) && t < |s.level| && s.level[t] == l && l < s.max && t != s.cur
  }

  /** Idle is current, or on the lowest queue. */
  ghost predicate IdleReady(s: Sched) {
    s.idle == s.cur || s.idle in Queue(s, s.max - 1)
  }

  ghost predicate Inv(s: Sched) {
    && Sizes(s) && (forall l {:trigger QueueOk(s, l)} :: QueueOk(s, l))
    && (forall t {:trigger s.level[t]} :: 0 <= t < |s.level| ==> 0 <= s.level[t] < LEVELS)
    && IdleReady(s)
  }

  /** On no run queue, and not current. */
  ghost predicate Off(s: Sched, t: int) {
    Thread(s, t) && t != s.cur && forall l {:trigger Queue(s, l)} :: t !in Queue(s, l)
  }

  /** A thread is current or on at most one queue. */
  lemma OneQueue(s: Sched, t: int, l: int, k: int)
    requires Inv(s) && t in Queue(s, l)
    ensures t != s.cur && (t in Queue(s, k) ==> k == l)
  {
    assert QueueOk(s, l) && QueueOk(s, k);
  }

  // ---------------------------------------------------------------------------------------------
  // Operations
  // ---------------------------------------------------------------------------------------------

  /** Make_Runnable's choice of level: no lower than there is, one up after blocking, and the lowest for Idle. */
  function NewLevel(s: Sched, t: int): int
    requires Thread(s, t) && |s.level| == |s.blocked| == |s.prio|
  {
    var l := if s.level[t] >= s.max then s.max - 1 else s.level[t];
    if s.prio[t] == PRIORITY_IDLE then s.max - 1 else if s.blocked[t] && l > 0 then l - 1 else l
  }

  function Ready(s: Sched, t: int): Sched
    requires Thread(s, t) && |s.level| == |s.blocked| == |s.prio| && 0 <= NewLevel(s, t) < |s.queues|
  {
    var l := NewLevel(s, t);
    s.(level := s.level[t := l], blocked := s.blocked[t := false], queues := s.queues[l := s.queues[l] + [t]])
  }

  /** The first level from l on with a thread in its queue; max if there is none. */
  function FirstLevel(s: Sched, l: int): (k: int)
    ensures l <= s.max ==> l <= k <= s.max
    decreases s.max - l
  {
    if l >= s.max || Queue(s, l) != [] then l else FirstLevel(s, l + 1)
  }

  function Choice(s: Sched): int
    requires FirstLevel(s, 0) < s.max
  {
    var q := Queue(s, FirstLevel(s, 0));
    if q == [] then -1 else q[BestOf(s.prio, q, |q|)]
  }

  /** Get_Next_Runnable, and the switch to that thread. */
  function Dispatched(s: Sched): Sched
    requires |s.queues| == LEVELS && 0 < s.max <= LEVELS && FirstLevel(s, 0) < s.max && Queue(s, FirstLevel(s, 0)) != []
  {
    var l := FirstLevel(s, 0);
    var q := Queue(s, l);
    s.(queues := s.queues[l := Without(q, BestOf(s.prio, q, |q|))], cur := Choice(s))
  }

  // ---------------------------------------------------------------------------------------------
  // What they keep
  // ---------------------------------------------------------------------------------------------

  lemma Assemble(s: Sched)
    requires Sizes(s) && IdleReady(s)
    requires forall l {:trigger QueueOk(s, l)} :: QueueOk(s, l)
    requires forall t {:trigger s.level[t]} :: 0 <= t < |s.level| ==> 0 <= s.level[t] < LEVELS
    ensures Inv(s)
  {
  }

  lemma QueueIs(s: Sched, l: int)
    requires Inv(s)
    ensures QueueOk(s, l) && Sizes(s) && IdleReady(s)
    ensures !(0 <= l < s.max) ==> Queue(s, l) == []
  {
    assert QueueOk(s, l);
    var q := Queue(s, l);
    assert forall t {:trigger t in q} :: t in q ==> l < s.max;
    assert q != [] ==> q[0] in q;
  }

  /** A thread that is off all queues becomes runnable. */
  lemma ReadyKeeps(s: Sched, t: int)
    requires Inv(s) && Off(s, t)
    ensures |s.level| == |s.blocked| == |s.prio| && 0 <= NewLevel(s, t) < s.max <= LEVELS == |s.queues|
    ensures Inv(Ready(s, t)) && Ready(s, t).cur == s.cur
  {
    hide Inv;
    QueueIs(s, 0);
    Levels(s);
    var r := Ready(s, t);
    forall l ensures QueueOk(r, l) {
      QueueIs(s, l);
      if t !in Queue(s, l) { DistinctSum(Queue(s, l), [t]); }
      assert Queue(r, l) == Queue(s, l) || Queue(r, l) == Queue(s, l) + [t];
    }
    QueueIs(s, s.max - 1);
    Assemble(r);
  }

  /** While Idle is queued, some queue in use has a thread. */
  lemma {:induction false} SomeLevel(s: Sched, l: int)
    requires Inv(s) && s.idle in Queue(s, s.max - 1) && 0 <= l < s.max
    ensures l <= FirstLevel(s, l) < s.max && Queue(s, FirstLevel(s, l)) != []
    ensures forall k {:trigger Queue(s, k)} :: l <= k < FirstLevel(s, l) ==> Queue(s, k) == []
    decreases s.max - l
  {
    hide Inv;
    if Queue(s, l) == [] { SomeLevel(s, l + 1); }
  }

  lemma DispatchKeeps(s: Sched)
    requires Inv(s) && s.cur == -1
    ensures FirstLevel(s, 0) < s.max && Queue(s, FirstLevel(s, 0)) != [] && |s.queues| == LEVELS
    ensures 0 < s.max <= LEVELS && Inv(Dispatched(s)) && Thread(s, Choice(s)) && Dispatched(s).cur == Choice(s)
  {
    hide Inv;
    QueueIs(s, 0);
    SomeLevel(s, 0);
    var f := FirstLevel(s, 0);
    var q := Queue(s, f);
    var i := BestOf(s.prio, q, |q|);
    QueueIs(s, f);
    WithoutFacts(q, i);
    assert q[i] in q;
    var r := Dispatched(s);
    hide BestOf, FirstLevel, Without, Distinct;
    forall l ensures QueueOk(r, l) { QueueIs(s, l); }
    Levels(s);
    Assemble(r);
  }

  /** The scheduler always finds a thread: one of the highest level with any, of the highest priority there, the
      one longest in that queue; and Idle only when there is no other. */
  lemma DispatchIsRight(s: Sched)
    requires Inv(s) && s.cur == -1
    ensures FirstLevel(s, 0) < s.max && Queue(s, FirstLevel(s, 0)) != [] && |s.queues| == LEVELS
    ensures Choice(s) in Queue(s, FirstLevel(s, 0))
    ensures forall l, t {:trigger t in Queue(s, l)} :: t in Queue(s, l) ==>
              FirstLevel(s, 0) <= l && (l == FirstLevel(s, 0) ==> Priority(s.prio, t) <= Priority(s.prio, Choice(s)))
    ensures var q := Queue(s, FirstLevel(s, 0));
            exists i {:trigger q[i]} :: 0 <= i < |q| && q[i] == Choice(s)
                && forall j {:trigger q[j]} :: 0 <= j < i ==> Priority(s.prio, q[j]) < Priority(s.prio, q[i])
    ensures Choice(s) == s.idle ==> forall l, t {:trigger t in Queue(s, l)} :: t in Queue(s, l) ==> t == s.idle
  {
    hide Inv;
    QueueIs(s, 0);
    SomeLevel(s, 0);
    var f := FirstLevel(s, 0);
    var q := Queue(s, f);
    BestIsBest(s.prio, q, |q|);
    hide BestOf, FirstLevel;
    forall l, t | t in Queue(s, l)
      ensures f <= l && (l == f ==> Priority(s.prio, t) <= Priority(s.prio, Choice(s)))
    {
      QueueIs(s, l);
    }
    if Choice(s) == s.idle {
      forall l, t | t in Queue(s, l) ensures t == s.idle { OnlyIdle(s, l, t); }
    }
  }

  lemma OnlyIdle(s: Sched, l: int, t: int)
    requires Inv(s) && FirstLevel(s, 0) < s.max && t in Queue(s, l) && s.idle in Queue(s, FirstLevel(s, 0))
    requires forall k, u {:trigger u in Queue(s, k)} :: u in Queue(s, k) ==>
        FirstLevel(s, 0) <= k && (k == FirstLevel(s, 0) ==> Priority(s.prio, u) <= Priority(s.prio, s.idle))
    ensures t == s.idle
  {
    hide FirstLevel;
    QueueIs(s, l);
    QueueIs(s, FirstLevel(s, 0));
    QueueIs(s, s.max - 1);
  }

  lemma Levels(s: Sched)
    requires Inv(s)
    ensures forall t {:trigger s.level[t]} :: 0 <= t < |s.level| ==> 0 <= s.level[t] < LEVELS
  {
  }

  // ---------------------------------------------------------------------------------------------
  // Changes of policy, and of level
  // ---------------------------------------------------------------------------------------------

  function Rev(q: seq<int>): (r: seq<int>)
    ensures |r| == |q| && forall i :: 0 <= i < |q| ==> r[i] == q[|q| - 1 - i]
  {
    if q == [] then [] else Rev(q[1..]) + [q[0]]
  }

  /** Queue 0 once the queues of levels 1 to i have been moved to it, one head after another to its front. */
  function Gathered(s: Sched, i: nat): seq<int> {
    if i == 0 then Queue(s, 0) else Rev(Queue(s, i)) + Gathered(s, i - 1)
  }

  /** Switch_To_RR. */
  function RoundRobin(s: Sched): Sched
    requires |s.queues| == LEVELS && s.max > 0
  {
    var q := Gathered(s, s.max - 1);
    s.(max := 1, queues := [q, [], [], []], level := seq(|s.level|, t requires 0 <= t < |s.level| => if t in q then 0
        else s.level[t]))
  }

  /** Switch_To_MLF: Idle goes from queue 0 to the lowest. */
  function Feedback(s: Sched): Sched
    requires |s.queues| == LEVELS && 0 <= s.idle < |s.level|
  {
    var q := Queue(s, 0);
    if s.idle in q then
      s.(max := LEVELS,
         queues := s.queues[0 := Without(q, IndexOf(q, s.idle))][LEVELS - 1 := [s.idle] + Queue(s, LEVELS - 1)],
         level := s.level[s.idle := LEVELS - 1])
    else s.(max := LEVELS)
  }

  function IndexOf(q: seq<int>, t: int): (i: nat)
    requires t in q
    ensures i < |q| && q[i] == t
  {
    if q[0] == t then 0 else 1 + IndexOf(q[1..], t)
  }

  /** A thread that has used up its quantum goes one level down, if there is one. */
  function Demoted(s: Sched): Sched
    requires 0 <= s.cur < |s.level|
  {
    if s.level[s.cur] < s.max - 1 then s.(level := s.level[s.cur := s.level[s.cur] + 1]) else s
  }

  lemma {:induction false} GatheredIs(s: Sched, i: nat)
    requires Inv(s) && i < s.max
    ensures Distinct(Gathered(s, i))
    ensures forall t {:trigger t in Gathered(s, i)} :: t in Gathered(s, i) <==>
        Thread(s, t) && t < |s.level| && s.level[t] <= i && t in Queue(s, s.level[t])
    decreases i
  {
    hide Inv;
    QueueIs(s, i);
    Levels(s);
    if i > 0 {
      GatheredIs(s, i - 1);
      var q, r := Queue(s, i), Rev(Queue(s, i));
      forall t ensures t in r <==> t in q {
        if t in q {
          var k :| 0 <= k < |q| && q[k] == t;
          assert r[|q| - 1 - k] == t;
        }
      }
      forall j, k | 0 <= j < k < |r| ensures r[j] != r[k] { assert q[|q| - 1 - k] != q[|q| - 1 - j]; }
      DistinctSum(r, Gathered(s, i - 1));
    }
  }

  lemma RoundRobinQueue(s: Sched, t: int)
    requires Inv(s) && |s.queues| == LEVELS && s.max > 0
    ensures t in Gathered(s, s.max - 1) <==> exists l {:trigger Queue(s, l)} :: t in Queue(s, l)
    ensures t in Gathered(s, s.max - 1) ==> Thread(s, t) && t < |s.level| && t != s.cur
  {
    hide Inv;
    QueueIs(s, 0);
    GatheredIs(s, s.max - 1);
    InSome(s, t);
    if 0 <= t < |s.level| { QueueIs(s, s.level[t]); }
  }

  lemma RoundRobinKeeps(s: Sched)
    requires Inv(s)
    ensures |s.queues| == LEVELS && s.max > 0 && Inv(RoundRobin(s)) && RoundRobin(s).cur == s.cur
    ensures forall t {:trigger t in Queue(RoundRobin(s), 0)} :: t in Queue(RoundRobin(s), 0) <==>
        exists l {:trigger Queue(s, l)} :: t in Queue(s, l)
  {
    hide Inv;
    QueueIs(s, 0);
    GatheredIs(s, s.max - 1);
    Levels(s);
    QueueIs(s, s.max - 1);
    var r := RoundRobin(s);
    hide Gathered, Distinct;
    forall t
      ensures t in Queue(r, 0) <==> exists l {:trigger Queue(s, l)} :: t in Queue(s, l)
    {
      RoundRobinQueue(s, t);
    }
    forall l
      ensures QueueOk(r, l)
    {
      forall t | t in Queue(r, l) ensures Thread(s, t) && t < |s.level| && t != s.cur { RoundRobinQueue(s, t); }
    }
    RoundRobinQueue(s, s.idle);
    Assemble(r);
  }

  lemma InSome(s: Sched, t: int)
    requires Inv(s)
    ensures (exists l {:trigger Queue(s, l)} :: t in Queue(s, l)) <==>
        Thread(s, t) && t < |s.level| && s.level[t] <= s.max - 1 && t in Queue(s, s.level[t])
  {
    hide Inv;
    if l :| t in Queue(s, l) { QueueIs(s, l); }
  }

  lemma FeedbackKeeps(s: Sched)
    requires Inv(s)
    ensures |s.queues| == LEVELS && 0 <= s.idle < |s.level| && Inv(Feedback(s)) && Feedback(s).cur == s.cur
  {
    hide Inv;
    QueueIs(s, 0);
    Levels(s);
    var r, q := Feedback(s), Queue(s, 0);
    if s.idle in q { WithoutFacts(q, IndexOf(q, s.idle)); }
    QueueIs(s, s.max - 1);
    hide Without, Distinct;
    forall l ensures QueueOk(r, l) { QueueIs(s, l); FeedbackQueue(s, l); }
    Assemble(r);
  }

  lemma FeedbackQueue(s: Sched, l: int)
    requires Inv(s) && |s.queues| == LEVELS && 0 <= s.idle < |s.level|
    ensures Distinct(Queue(Feedback(s), l))
  {
    hide Inv;
    QueueIs(s, l);
    QueueIs(s, 0);
    QueueIs(s, LEVELS - 1);
    if s.idle in Queue(s, 0) {
      WithoutFacts(Queue(s, 0), IndexOf(Queue(s, 0), s.idle));
      DistinctSum([s.idle], Queue(s, LEVELS - 1));
    }
  }

  lemma DemotedKeeps(s: Sched)
    requires Inv(s) && s.cur != -1
    ensures 0 <= s.cur < |s.level| && Inv(Demoted(s)) && Demoted(s).cur == s.cur
  {
    hide Inv;
    QueueIs(s, 0);
    Levels(s);
    var r := Demoted(s);
    forall l ensures QueueOk(r, l) { QueueIs(s, l); }
    QueueIs(s, s.max - 1);
    Assemble(r);
  }

  // ---------------------------------------------------------------------------------------------
  // Runs
  // ---------------------------------------------------------------------------------------------

  /** Yield: also what the interrupt return does. Block: Wait. Wake: a thread that is off all queues becomes
      runnable. Tick: the current thread's quantum is over. */
  datatype Event = Yield | Block | Wake(t: int) | Tick | ToRoundRobin | ToFeedback

  /** The current thread as it is put aside. */
  function Aside(s: Sched): Sched {
    s.(cur := -1)
  }

  ghost predicate Legal(s: Sched, e: Event) {
    match e
    case Block => s.cur != s.idle
    case Wake(t) => Off(s, t)
    case _ => true
  }

  function Blocked(s: Sched): Sched
    requires 0 <= s.cur < |s.blocked|
  {
    s.(blocked := s.blocked[s.cur := true], cur := -1)
  }

  /** Putting the current thread back on a run queue makes up for Idle too. */
  lemma YieldKeeps(s: Sched)
    requires Inv(s) && s.cur != -1
    ensures Thread(s, s.cur) && |s.level| == |s.blocked| == |s.prio|
        && 0 <= NewLevel(Aside(s), s.cur) < s.max <= LEVELS == |s.queues|
    ensures var r := Ready(Aside(s), s.cur); Inv(r) && r.cur == -1
  {
    hide Inv;
    QueueIs(s, 0);
    Levels(s);
    var r := Ready(Aside(s), s.cur);
    forall l ensures QueueOk(r, l) {
      QueueIs(s, l);
      DistinctSum(Queue(s, l), [s.cur]);
      assert Queue(r, l) == Queue(s, l) || Queue(r, l) == Queue(s, l) + [s.cur];
    }
    QueueIs(s, s.max - 1);
    Assemble(r);
  }

  lemma BlockKeeps(s: Sched)
    requires Inv(s) && s.cur != -1 && s.cur != s.idle
    ensures 0 <= s.cur < |s.blocked| && Inv(Blocked(s)) && Blocked(s).cur == -1
  {
    hide Inv;
    QueueIs(s, 0);
    Levels(s);
    var r := Blocked(s);
    forall l ensures QueueOk(r, l) { QueueIs(s, l); }
    QueueIs(s, s.max - 1);
    Assemble(r);
  }

  function Step(s: Sched, e: Event): Sched
    requires Inv(s) && s.cur != -1 && Legal(s, e)
  {
    match e
    case Yield => YieldKeeps(s); DispatchKeeps(Ready(Aside(s), s.cur)); Dispatched(Ready(Aside(s), s.cur))
    case Block => BlockKeeps(s); DispatchKeeps(Blocked(s)); Dispatched(Blocked(s))
    case Wake(t) => ReadyKeeps(s, t); Ready(s, t)
    case Tick => DemotedKeeps(s); Demoted(s)
    case ToRoundRobin => RoundRobinKeeps(s); RoundRobin(s)
    case ToFeedback => FeedbackKeeps(s); Feedback(s)
  }

  lemma StepKeeps(s: Sched, e: Event)
    requires Inv(s) && s.cur != -1 && Legal(s, e)
    ensures Inv(Step(s, e)) && Step(s, e).cur != -1
  {
    hide Inv, Ready, Dispatched, RoundRobin, Feedback, Off;
    match e
    case Yield => YieldKeeps(s); DispatchKeeps(Ready(Aside(s), s.cur));
    case Block => BlockKeeps(s); DispatchKeeps(Blocked(s));
    case Wake(t) => ReadyKeeps(s, t);
    case Tick => DemotedKeeps(s);
    case ToRoundRobin => RoundRobinKeeps(s);
    case ToFeedback => FeedbackKeeps(s);
  }

  /** The policy changes and demotion, as steps. */
  lemma StepIs(s: Sched)
    requires Inv(s) && s.cur != -1
    ensures |s.queues| == LEVELS && s.max > 0 && 0 <= s.idle < |s.level| && 0 <= s.cur < |s.level|
    ensures Step(s, ToRoundRobin) == RoundRobin(s) && Step(s, ToFeedback) == Feedback(s) && Step(s, Tick) == Demoted(s)
  {
    hide Inv, RoundRobin, Feedback, Demoted;
    RoundRobinKeeps(s);
    FeedbackKeeps(s);
    DemotedKeeps(s);
  }

  ghost predicate Reaches(s: Sched, es: seq<Event>, r: Sched)
    requires Inv(s) && s.cur != -1
    decreases |es|
  {
    if es == [] then r == s
    else Legal(s, es[0]) && (StepKeeps(s, es[0]); Reaches(Step(s, es[0]), es[1..], r))
  }

  lemma {:induction false} RunKeeps(s: Sched, es: seq<Event>, r: Sched)
    requires Inv(s) && s.cur != -1 && Reaches(s, es, r)
    ensures Inv(r) && r.cur != -1
    decreases |es|
  {
    if es != [] {
      StepKeeps(s, es[0]);
      RunKeeps(Step(s, es[0]), es[1..], r);
    }
  }

  // ---------------------------------------------------------------------------------------------
  // From the start
  // ---------------------------------------------------------------------------------------------

  /** The threads of Init_Scheduler. Those with greater numbers are started later; starting one is a wakeup. */
  const MAIN := 0
  const IDLE := 1
  const REAPER := 2

  /** The priorities threads start with: only Idle has the lowest. */
  ghost predicate Priorities(prio: seq<int>) {
    && |prio| > REAPER && prio[IDLE] == PRIORITY_IDLE
    && forall t {:trigger prio[t]} :: 0 <= t < |prio| && t != IDLE ==> prio[t] > PRIORITY_IDLE
  }

  /** Main runs, and nothing else has been started. */
  function Bare(prio: seq<int>): Sched {
    Sched(LEVELS, [[], [], [], []], seq(|prio|, t => 0), seq(|prio|, t => false), prio, IDLE, MAIN)
  }

  /** Init_Scheduler: Idle is started, then the Reaper. */
  function Boot(prio: seq<int>): Sched
    requires |prio| > REAPER
  {
    Ready(Ready(Bare(prio), IDLE), REAPER)
  }

  lemma BootIs(prio: seq<int>)
    requires Priorities(prio)
    ensures Boot(prio).queues == [[REAPER], [], [], [IDLE]] && Boot(prio).cur == MAIN
    ensures Inv(Boot(prio))
  {
    var none: seq<int> := [];
    assert none + [IDLE] == [IDLE] && none + [REAPER] == [REAPER];
    assert NewLevel(Bare(prio), IDLE) == 3;
    var b := Ready(Bare(prio), IDLE);
    assert b.queues == [[], [], [], [IDLE]];
    assert NewLevel(b, REAPER) == 0;
    var s := Boot(prio);
    assert s.queues == [[REAPER], [], [], [IDLE]];
    forall l ensures QueueOk(s, l) {
      assert Queue(s, l) == if l == 0 then [REAPER] else if l == 3 then [IDLE] else [];
    }
    assert IDLE in Queue(s, 3);
    Assemble(s);
  }

  /** From the start, whatever happens, with policies changed at any time, a thread is on the queue of its own level
      only, that level is in use, the current thread is on none, and Idle is always at hand. */
  lemma EveryRun(prio: seq<int>, es: seq<Event>, r: Sched)
    requires Priorities(prio) && (BootIs(prio); Reaches(Boot(prio), es, r))
    ensures Inv(r) && r.cur != -1
  {
    BootIs(prio);
    RunKeeps(Boot(prio), es, r);
  }
}

/** The scheduler over its own data. */
module Scheduler {
  import opened Seqs
  import opened ThreadQueues
  import opened SchedSpec

  class RunQueues {
    var maxLevel: int
    const runQueue: array<seq<int>>
    const level: array<int>
    const blocked: array<bool>
    const prio: seq<int>
    var current: int
    ghost const idle: int

    /** The state, with c for the current thread. */
    ghost function With(c: int): Sched
      reads this, runQueue, level, blocked
    {
      Sched(maxLevel, runQueue[..], level[..], blocked[..], prio, idle, c)
    }

    ghost predicate Valid()
      reads this, runQueue, level, blocked
    {
      Inv(With(current)) && current != -1
    }

    /** Init_Scheduler. */
    constructor (prio: seq<int>)
      requires Priorities(prio)
      ensures Valid() && With(current) == Boot(prio) && fresh(runQueue) && fresh(level) && fresh(blocked)
    {
      maxLevel := LEVELS;
      runQueue := new seq<int>[LEVELS](i => []);
      level := new int[|prio|](i => 0);
      blocked := new bool[|prio|](i => false);
      this.prio := prio;
      current := MAIN;
      idle := IDLE;
      new;
      assert With(MAIN) == Bare(prio);
      MakeRunnable(IDLE, MAIN);
      MakeRunnable(REAPER, MAIN);
      BootIs(prio);
    }

    /** Make_Runnable. */
    method MakeRunnable(t: int, ghost c: int)
      requires Thread(With(c), t) && level.Length == blocked.Length == |prio| && runQueue.Length == LEVELS
      requires 0 <= NewLevel(With(c), t) < maxLevel <= LEVELS
      modifies runQueue, level, blocked
      ensures With(c) == Ready(old(With(c)), t)
      ensures var was := if old(level[t]) < maxLevel then old(level[t]) else maxLevel - 1;
              var l := if prio[t] == PRIORITY_IDLE then maxLevel - 1
                       else if old(blocked[t]) && was > 0 then was - 1 else was;
              runQueue[..] == old(runQueue[..])[l := old(runQueue[..])[l] + [t]] && level[t] == l && !blocked[t]
    {
      ghost var s := With(c);
      var currentQ := level[t];
      if currentQ >= maxLevel {
        level[t] := maxLevel - 1;
        currentQ := maxLevel - 1;
      }
      if blocked[t] && currentQ > 0 { level[t] := level[t] - 1; }
      if prio[t] == PRIORITY_IDLE { level[t] := maxLevel - 1; }
      blocked[t] := false;
      assert level[..] == s.level[t := NewLevel(s, t)];
      runQueue[level[t]] := runQueue[level[t]] + [t];
    }

    /** Find_Best. */
    method FindBest(q: seq<int>) returns (i: nat)
      requires q != [] && forall k :: 0 <= k < |q| ==> 0 <= q[k] < |prio|
      ensures i == BestOf(prio, q, |q|)
    {
      i := 0;
      for k := 1 to |q|
        invariant 0 <= i < k && i == BestOf(prio, q, k)
      {
        if prio[q[k]] > prio[q[i]] { i := k; }
      }
    }

    /** The search of Get_Next_Runnable: the highest queue with a thread. */
    method FindLevel() returns (i: int)
      requires runQueue.Length == LEVELS && 0 < maxLevel <= LEVELS && FirstLevel(With(-1), 0) < maxLevel
          && Queue(With(-1), FirstLevel(With(-1), 0)) != []
      ensures i == FirstLevel(With(-1), 0) && 0 <= i < maxLevel && runQueue[i] != []
    {
      i := 0;
      while runQueue[i] == []
        invariant 0 <= i <= FirstLevel(With(-1), 0) && FirstLevel(With(-1), i) == FirstLevel(With(-1), 0)
        decreases maxLevel - i
      {
        i := i + 1;
      }
    }

    /** Get_Next_Runnable. */
    method GetNextRunnable() returns (best: int)
      requires Inv(With(-1))
      modifies runQueue
      ensures 0 < maxLevel <= LEVELS && FirstLevel(old(With(-1)), 0) < maxLevel
          && Queue(old(With(-1)), FirstLevel(old(With(-1)), 0)) != []
      ensures best == Choice(old(With(-1))) && With(best) == Dispatched(old(With(-1))) && Inv(With(best)) && best != -1
    {
      hide Inv, Choice, FirstLevel, BestOf;
      ghost var s := With(-1);
      DispatchKeeps(s);
      var i := FindLevel();
      QueueThreads(s, i);
      var k := FindBest(runQueue[i]);
      ChoiceIs(s, i);
      best := runQueue[i][k];
      runQueue[i] := runQueue[i][..k] + runQueue[i][k + 1..];
    }

    /** Yield; the code on return from an interrupt does the same. */
    method Yield()
      requires Valid()
      modifies `current, runQueue, level, blocked
      ensures Valid() && With(current) == Step(old(With(current)), SchedSpec.Event.Yield)
    {
      YieldKeeps(With(current));
      MakeRunnable(current, -1);
      current := GetNextRunnable();
    }

    /** Wait: the current thread, put on some wait queue, gives up the CPU. */
    method Block()
      requires Valid() && current != idle
      modifies `current, runQueue, blocked
      ensures Valid() && With(current) == Step(old(With(current)), SchedSpec.Event.Block)
    {
      BlockKeeps(With(current));
      blocked[current] := true;
      current := GetNextRunnable();
    }

    /** Wake_Up: all threads of a wait queue become runnable, in order. */
    method WakeUp(waitQueue: seq<int>)
      requires Valid() && Distinct(waitQueue) && forall t {:trigger t in waitQueue} :: t in waitQueue ==>
          Off(With(current), t)
      modifies runQueue, level, blocked
      ensures Valid() && Reaches(old(With(current)), Wakes(waitQueue), With(current))
    {
      ghost var s := With(current);
      hide Inv;
      ReachesNone(s);
      forall j | 0 <= j < |waitQueue| ensures Off(s, waitQueue[j]) { assert waitQueue[j] in waitQueue; }
      for i := 0 to |waitQueue|
        invariant Valid() && Inv(s) && s.cur != -1 && Reaches(s, Wakes(waitQueue[..i]), With(current))
            && current == s.cur
        invariant forall j {:trigger waitQueue[j]} :: i <= j < |waitQueue| ==> Off(With(current), waitQueue[j])
      {
        ghost var mid := With(current);
        ReadyKeeps(mid, waitQueue[i]);
        MakeRunnable(waitQueue[i], current);
        ReachesMore(s, waitQueue, i, mid);
        forall j | i + 1 <= j < |waitQueue|
          ensures Off(With(current), waitQueue[j])
        {
          StillOff(mid, waitQueue[i], waitQueue[j]);
        }
      }
      assert waitQueue[..|waitQueue|] == waitQueue;
    }

    /** Timer_Interrupt_Handler, when the current thread's quantum is over. */
    method QuantumOver()
      requires Valid()
      modifies level
      ensures Valid() && With(current) == Step(old(With(current)), SchedSpec.Event.Tick)
    {
      DemotedKeeps(With(current));
      if level[current] < maxLevel - 1 { level[current] := level[current] + 1; }
    }

    /** Switch_To_RR. */
    method SwitchToRoundRobin()
      requires Valid()
      modifies `maxLevel, runQueue, level
      ensures Valid() && With(current) == Step(old(With(current)), SchedSpec.Event.ToRoundRobin)
    {
      hide Inv, Gathered, RoundRobin, Gathering, Step;
      ghost var s := With(current);
      RoundRobinKeeps(s);
      QueueIs(s, 0);
      Gathering0(s);
      StepIs(s);
      for i := 1 to maxLevel
        invariant Valid0(s) && Gathering(s, With(current), i, [], Queue(s, i))
      {
        ghost var taken := MoveToFront(s, i);
        GatheringNext(s, With(current), i, taken);
      }
      GatheringDone(s, With(current));
      maxLevel := 1;
    }

    /** Its inner loop: the threads of queue i. */
    method MoveToFront(ghost s: Sched, i: int) returns (ghost taken: seq<int>)
      requires Valid0(s) && 0 < i < maxLevel && Gathering(s, With(current), i, [], Queue(s, i))
      modifies runQueue, level
      ensures Valid0(s) && Gathering(s, With(current), i, taken, [])
    {
      hide Inv, Gathered, RoundRobin, Gathering;
      taken := [];
      GatheringQueue(s, With(current), i, taken, Queue(s, i));
      while runQueue[i] != []
        invariant Valid0(s) && Gathering(s, With(current), i, taken, runQueue[i])
        decreases |runQueue[i]|
      {
        GatheringStep(s, With(current), i, taken, runQueue[i]);
        var kthread := runQueue[i][0];
        level[kthread] := 0;
        runQueue[i] := runQueue[i][1..];
        taken := taken + [kthread];
        runQueue[0] := [kthread] + runQueue[0];
      }
    }

    ghost predicate Valid0(s: Sched)
      reads this
    {
      runQueue.Length == LEVELS && Inv(s) && s.cur == current && s.max == maxLevel && level.Length == |s.level|
          && 0 < maxLevel <= LEVELS
    }

    /** Switch_To_MLF. */
    method SwitchToFeedback()
      requires Valid()
      modifies `maxLevel, runQueue, level
      ensures Valid() && With(current) == Step(old(With(current)), SchedSpec.Event.ToFeedback)
    {
      hide Inv, Step;
      ghost var s := With(current);
      FeedbackKeeps(s);
      StepIs(s);
      QueueIs(s, 0);
      maxLevel := LEVELS;
      ghost var r := Feedback(s);
      var k := 0;
      ghost var there := s.idle in Queue(s, 0);
      while k < |runQueue[0]|
        invariant 0 <= k <= |runQueue[0]| && maxLevel == LEVELS && current == s.cur
        invariant there ==>
            s.idle in Queue(s, 0) && k <= IndexOf(Queue(s, 0), s.idle) && With(current) == s.(max := LEVELS)
        invariant !there ==> With(current) == r
        decreases |runQueue[0]| - k
      {
        if there { ScanHead(s, k); } else { ScanRest(s, k); }
        var kthread := runQueue[0][k];
        if prio[kthread] == PRIORITY_IDLE {
          MoveDown(kthread, k);
          FeedbackIs(s, k);
          there := false;
        } else {
          k := k + 1;
        }
      }
      if s.idle in Queue(s, 0) { assert IndexOf(Queue(s, 0), s.idle) < |Queue(s, 0)|; }
    }

    /** Idle, at position k of queue 0, goes to the lowest queue. */
    method MoveDown(kthread: int, k: int)
      requires runQueue.Length == LEVELS == maxLevel && 0 <= k < |runQueue[0]| && runQueue[0][k] == kthread
          && 0 <= kthread < level.Length
      modifies runQueue, level
      ensures runQueue[..]
          == old(runQueue[..])[0 := Without(old(runQueue[0]), k)][LEVELS - 1 := [kthread] + old(runQueue[LEVELS - 1])]
      ensures level[..] == old(level[..])[kthread := LEVELS - 1]
    {
      runQueue[0] := runQueue[0][..k] + runQueue[0][k + 1..];
      runQueue[maxLevel - 1] := [kthread] + runQueue[maxLevel - 1];
      level[kthread] := maxLevel - 1;
    }
  }

  lemma FeedbackIs(s: Sched, k: int)
    requires |s.queues| == LEVELS && 0 <= s.idle < |s.level| && s.idle in Queue(s, 0)
        && k == IndexOf(Queue(s, 0), s.idle)
    ensures Feedback(s) ==
            s.(max := LEVELS,
               queues := s.queues[0 := Without(Queue(s, 0), k)][LEVELS - 1 := [s.idle] + Queue(s, LEVELS - 1)],
               level := s.level[s.idle := LEVELS - 1])
  {
  }

  lemma QueueThreads(s: Sched, l: int)
    requires Inv(s)
    ensures forall k :: 0 <= k < |Queue(s, l)| ==> 0 <= Queue(s, l)[k] < |s.prio|
  {
    hide Inv;
    QueueIs(s, l);
    forall k | 0 <= k < |Queue(s, l)| ensures 0 <= Queue(s, l)[k] < |s.prio| { assert Queue(s, l)[k] in Queue(s, l); }
  }

  lemma ChoiceIs(s: Sched, i: int)
    requires i == FirstLevel(s, 0) < s.max && Queue(s, i) != []
    ensures Choice(s) == Queue(s, i)[BestOf(s.prio, Queue(s, i), |Queue(s, i)|)]
  {
  }

  // Waking all.

  function Wakes(q: seq<int>): seq<Event> {
    seq(|q|, i requires 0 <= i < |q| => SchedSpec.Event.Wake(q[i]))
  }

  lemma ReachesNone(s: Sched)
    requires Inv(s) && s.cur != -1
    ensures Reaches(s, Wakes([]), s)
  {
  }

  lemma {:induction false} ReachesAppend(s: Sched, es: seq<Event>, r: Sched, e: Event)
    requires Inv(s) && s.cur != -1 && Reaches(s, es, r) && Inv(r) && r.cur != -1 && Legal(r, e)
    ensures Reaches(s, es + [e], Step(r, e))
    decreases |es|
  {
    hide Inv, Step, Legal;
    StepKeeps(r, e);
    if es == [] {
      assert [e][1..] == [];
      assert es + [e] == [e];
    } else {
      StepKeeps(s, es[0]);
      assert (es + [e])[0] == es[0] && (es + [e])[1..] == es[1..] + [e];
      ReachesAppend(Step(s, es[0]), es[1..], r, e);
    }
  }

  lemma ReachesMore(s: Sched, q: seq<int>, i: nat, mid: Sched)
    requires Inv(s) && s.cur != -1 && i < |q| && Reaches(s, Wakes(q[..i]), mid) && Inv(mid) && mid.cur != -1
        && Off(mid, q[i])
    ensures Reaches(s, Wakes(q[..i + 1]), Step(mid, SchedSpec.Event.Wake(q[i])))
  {
    hide Inv, Step, Off;
    assert Wakes(q[..i + 1]) == Wakes(q[..i]) + [SchedSpec.Event.Wake(q[i])];
    ReachesAppend(s, Wakes(q[..i]), mid, SchedSpec.Event.Wake(q[i]));
  }

  lemma StillOff(s: Sched, t: int, u: int)
    requires Inv(s) && Off(s, t) && Off(s, u) && t != u
    ensures |s.level| == |s.blocked| == |s.prio| && 0 <= NewLevel(s, t) < |s.queues| && Off(Ready(s, t), u)
  {
    hide Inv;
    ReadyKeeps(s, t);
    var r := Ready(s, t);
    forall l ensures u !in Queue(r, l) { assert Queue(r, l) == Queue(s, l) || Queue(r, l) == Queue(s, l) + [t]; }
  }

  // Gathering all threads in queue 0.

  /** r is s with the queues of levels below i moved to queue 0, and of queue i the threads taken; rest is left. */
  ghost predicate Gathering(s: Sched, r: Sched, i: nat, taken: seq<int>, rest: seq<int>) {
    && i > 0 && |s.queues| == |r.queues| == LEVELS && taken + rest == Queue(s, i) && |r.level| == |s.level|
    && r == s.(queues := r.queues, level := r.level)
    && r.queues[0] == Rev(taken) + Gathered(s, i - 1) && Queue(r, i) == rest
    && (forall k {:trigger Queue(r, k)} :: i < k < LEVELS ==> Queue(r, k) == Queue(s, k))
    && (forall k {:trigger Queue(r, k)} :: 0 < k < i ==> Queue(r, k) == [])
    && (forall t {:trigger r.level[t]} :: 0 <= t < |s.level| ==> r.level[t] == if t in r.queues[0] then 0
        else s.level[t])
  }

  lemma {:induction false} RevSnoc(q: seq<int>, t: int)
    ensures Rev(q + [t]) == [t] + Rev(q)
  {
    var r := Rev(q + [t]);
    assert forall i :: 0 <= i < |r| ==> r[i] == ([t] + Rev(q))[i];
  }

  lemma Gathering0(s: Sched)
    requires Inv(s)
    ensures Gathering(s, s, 1, [], Queue(s, 1))
  {
    hide Inv;
    QueueIs(s, 0);
    Levels(s);
    assert Rev([]) + Gathered(s, 0) == Queue(s, 0);
  }

  lemma GatheringQueue(s: Sched, r: Sched, i: nat, taken: seq<int>, rest: seq<int>)
    requires Gathering(s, r, i, taken, rest)
    ensures Queue(r, i) == rest && |r.level| == |s.level|
  {
  }

  lemma GatheringStep(s: Sched, r: Sched, i: nat, taken: seq<int>, rest: seq<int>)
    requires Inv(s) && Gathering(s, r, i, taken, rest) && rest != [] && i < LEVELS
    ensures var h := rest[0];
            0 <= h < |s.level| && |r.level| == |s.level| && |r.queues| == LEVELS
            && Gathering(s, r.(level := r.level[h := 0], queues := r.queues[i := rest[1..]][0 := [h] + r.queues[0]]),
                i, taken + [h], rest[1..])
  {
    hide Inv, Gathered, Rev;
    var h, q := rest[0], r.queues[0];
    QueueIs(s, i);
    assert (taken + rest)[|taken|] == h;
    assert h in Queue(s, i);
    RevSnoc(taken, h);
    assert taken + [h] + rest[1..] == taken + rest;
    assert [h] + (Rev(taken) + Gathered(s, i - 1)) == [h] + Rev(taken) + Gathered(s, i - 1);
    var r' := r.(level := r.level[h := 0], queues := r.queues[i := rest[1..]][0 := [h] + q]);
    assert r'.queues[0] == [h] + q && Queue(r', i) == rest[1..];
    forall t | 0 <= t < |s.level| ensures r'.level[t] == if t in r'.queues[0] then 0 else s.level[t] {
      assert t in [h] + q <==> t == h || t in q;
    }
    forall k | 0 < k < LEVELS && k != i ensures Queue(r', k) == Queue(r, k) {}
  }

  lemma GatheringNext(s: Sched, r: Sched, i: nat, taken: seq<int>)
    requires Gathering(s, r, i, taken, []) && i < LEVELS
    ensures Gathering(s, r, i + 1, [], Queue(s, i + 1))
  {
    assert taken == Queue(s, i);
    assert Rev([]) + Gathered(s, i) == Gathered(s, i);
  }

  lemma GatheringDone(s: Sched, r: Sched)
    requires Inv(s) && s.max > 0 && Gathering(s, r, s.max, [], Queue(s, s.max))
    ensures |s.queues| == LEVELS && r.(max := 1) == RoundRobin(s)
  {
    hide Inv, Gathered;
    assert Rev([]) + Gathered(s, s.max - 1) == Gathered(s, s.max - 1);
    QueueIs(s, s.max);
    QueueIs(s, 0);
    forall k | s.max <= k < LEVELS ensures Queue(r, k) == [] { QueueIs(s, k); }
    assert r.queues == [Queue(r, 0), Queue(r, 1), Queue(r, 2), Queue(r, 3)];
    assert r.level == RoundRobin(s).level;
  }

  /** Idle is the only thread of the lowest priority. */
  lemma ScanHead(s: Sched, k: int)
    requires Inv(s) && 0 <= k < |Queue(s, 0)|
    ensures 0 <= Queue(s, 0)[k] < |s.prio|
        && (s.prio[Queue(s, 0)[k]] == PRIORITY_IDLE <==> s.idle in Queue(s, 0) && k == IndexOf(Queue(s, 0), s.idle))
  {
    hide Inv;
    QueueIs(s, 0);
    assert Queue(s, 0)[k] in Queue(s, 0);
  }

  lemma ScanRest(s: Sched, k: int)
    requires Inv(s)
    ensures |s.queues| == LEVELS && 0 <= s.idle < |s.level|
    ensures 0 <= k < |Queue(Feedback(s), 0)| ==>
        0 <= Queue(Feedback(s), 0)[k] < |s.prio| && s.prio[Queue(Feedback(s), 0)[k]] != PRIORITY_IDLE
  {
    hide Inv;
    FeedbackKeeps(s);
    QueueIs(s, 0);
    var q := Queue(Feedback(s), 0);
    QueueIs(Feedback(s), 0);
    if s.idle in Queue(s, 0) { WithoutFacts(Queue(s, 0), IndexOf(Queue(s, 0), s.idle)); }
    assert 0 <= k < |q| ==> q[k] in q;
  }
}
