/** How a thread dies (src/geekos/kthread.c): Exit, Join, Detach_Thread and the Reaper, as a state machine whose
    steps are the stretches run with interrupts disabled. Threads are numbers, given out in order. */
module Lifecycle {
  import opened Seqs

  /** Dying: Exit has marked the thread dead and runs its destructors, with interrupts on. Gone: it has given up
      its reference to itself and will not run again. */
  datatype Phase = Running | Dying | Gone

  /** owner: -1 for a detached thread. joined: the owner's reference is gone. freed: how often its pages have been
      freed. next: its link in a thread queue, -1 at the end. asleepOn: the thread whose joinQueue it waits in. */
  datatype Thread = Thread(owner: int, refCount: int, phase: Phase, exitCode: int, joined: bool, freed: nat,
      next: int, asleepOn: int)

  /** Where the Reaper is: waiting; about to look at the graveyard; about to read the link of kthread, or done if
      that is -1; about to dispose of kthread, having read its link. */
  datatype Reaper = Waiting | Looking | Walking(kthread: int) | Disposing(kthread: int, after: int)

  /** head and tail: of the graveyard. grave and walk: the threads in it, and those the Reaper has taken. */
  datatype System = System(threads: seq<Thread>, head: int, tail: int, reaper: Reaper, grave: seq<int>, walk: seq<int>)

  function Th(s: System, t: int): Thread {
    if 0 <= t < |s.threads| then s.threads[t] else Thread(-1, 0, Gone, 0, true, 0, -1, -1)
  }

  predicate Exists(s: System, t: int) {
    0 <= t < |s.threads|
  }

  // ---------------------------------------------------------------------------------------------
  // Steps
  // ---------------------------------------------------------------------------------------------

  function With(s: System, t: int, h: Thread): System
    requires Exists(s, t)
  {
    s.(threads := s.threads[t := h])
  }

  /** Add_To_Back_Of_Thread_Queue on the graveyard, and Wake_Up of the Reaper. */
  function Reap(s: System, t: int): System
    requires Exists(s, t)
  {
    var u := With(s, t, s.threads[t].(next := -1));
    var v := if s.tail == -1 then u.(head := t, tail := t)
             else if Exists(u, s.tail) then With(u, s.tail, u.threads[s.tail].(next := t)).(tail := t)
             else u;
    v.(grave := s.grave + [t], reaper := if s.reaper.Waiting? then Looking else s.reaper)
  }

  /** Detach_Thread. */
  function Detach(s: System, t: int): System
    requires Exists(s, t)
  {
    var h := s.threads[t];
    var u := With(s, t, h.(refCount := h.refCount - 1));
    if h.refCount - 1 == 0 then Reap(u, t) else u
  }

  /** Start: a thread is created. Die and Finish: the two halves of Exit. Sleep: Join finds the thread alive and
      waits. Join: Join finds it dead. Link: some other queue, which the thread is on, is changed. The rest are the
      Reaper's steps. */
  datatype Event =
    | Start(owner: int) | Die(t: int, code: int) | Finish(t: int) | Sleep(t: int) | Join(t: int) | Link(t: int,
        next: int)
    | Wait | Take | ReadLink | Dispose | Done

  predicate Awake(s: System, t: int) {
    Exists(s, t) && s.threads[t].phase == Running && s.threads[t].asleepOn == -1
  }

  /** The owner of t, awake, joins it for the first time. */
  predicate MayJoin(s: System, t: int) {
    Exists(s, t) && Awake(s, s.threads[t].owner) && !s.threads[t].joined
  }

  predicate Enabled(s: System, e: Event) {
    match e
    case Start(owner) => owner == -1 || Awake(s, owner)
    case Die(t, code) => Awake(s, t)
    case Finish(t) => Exists(s, t) && s.threads[t].phase == Dying
    case Sleep(t) => MayJoin(s, t) && s.threads[t].phase == Running && s.threads[t].owner != t
    case Join(t) => MayJoin(s, t) && s.threads[t].phase != Running
    case Link(t, next) => Exists(s, t) && s.threads[t].refCount > 0
    case Wait => s.reaper.Looking? && s.head == -1
    case Take => s.reaper.Looking? && s.head != -1
    case ReadLink => s.reaper.Walking? && s.reaper.kthread != -1 && Exists(s, s.reaper.kthread)
    case Dispose => s.reaper.Disposing? && Exists(s, s.reaper.kthread)
    case Done => s.reaper.Walking? && s.reaper.kthread == -1
  }

  /** Finish: Wake_Up of the joinQueue, in which only the owner can be, and the thread's reference to itself. */
  function Finished(s: System, t: int): System
    requires Exists(s, t)
  {
    var o := s.threads[t].owner;
    var u := if Exists(s, o) && s.threads[o].asleepOn == t then With(s, o, s.threads[o].(asleepOn := -1)) else s;
    Detach(With(u, t, u.threads[t].(phase := Gone)), t)
  }

  function Step(s: System, e: Event): System
    requires Enabled(s, e)
  {
    match e
    case Start(owner) =>
        s.(threads := s.threads + [Thread(owner, if owner == -1 then 1 else 2, Running, 0, false, 0, -1, -1)])
    case Die(t, code) => With(s, t, s.threads[t].(phase := Dying, exitCode := code))
    case Finish(t) => Finished(s, t)
    case Sleep(t) => With(s, s.threads[t].owner, s.threads[s.threads[t].owner].(asleepOn := t))
    case Join(t) => Detach(With(s, t, s.threads[t].(joined := true)), t)
    case Link(t, next) => With(s, t, s.threads[t].(next := next))
    case Wait => s.(reaper := Waiting)
    case Take => s.(head := -1, tail := -1, reaper := Walking(s.head), grave := [], walk := s.grave)
    case ReadLink => s.(reaper := Disposing(s.reaper.kthread, s.threads[s.reaper.kthread].next))
    case Dispose =>
      var t := s.reaper.kthread;
      With(s, t, s.threads[t].(freed := s.threads[t].freed + 1)).(reaper := Walking(s.reaper.after),
          walk := if s.walk == [] then [] else s.walk[1..])
    case Done => s.(reaper := Looking)
  }

  // ---------------------------------------------------------------------------------------------
  // The invariant
  // ---------------------------------------------------------------------------------------------

  /** References: the thread's own until it is gone, and its owner's until it has joined. */
  function Refs(h: Thread): int {
    (if h.phase == Gone then 0 else 1) + (if h.owner != -1 && !h.joined then 1 else 0)
  }

  ghost predicate ThreadOk(s: System, t: int) {
    Exists(s, t) ==>
      var h := s.threads[t];
      && h.refCount == Refs(h) && -1 <= h.owner < t
      && (h.refCount > 0 ==> t !in s.grave && t !in s.walk && h.freed == 0)
      && (h.refCount == 0 ==> (if t in s.grave || t in s.walk then h.freed == 0 else h.freed == 1))
      && !(t in s.grave && t in s.walk)
      && (h.asleepOn != -1 ==>
          Exists(s, h.asleepOn) && s.threads[h.asleepOn].phase != Gone && s.threads[h.asleepOn].owner == t
                               && !s.threads[h.asleepOn].joined && h.phase == Running)
  }

  function First(q: seq<int>): int {
    if q == [] then -1 else q[0]
  }

  function Last(q: seq<int>): int {
    if q == [] then -1 else q[|q| - 1]
  }

  /** The links of the threads lead from each to the next. */
  ghost predicate Chained(s: System, q: seq<int>) {
    && (forall i {:trigger q[i]} :: 0 <= i < |q| ==> Exists(s, q[i]) && s.threads[q[i]].refCount == 0)
    && (forall i {:trigger Th(s, q[i]).next} :: 0 <= i < |q| ==> Th(s, q[i]).next == if i + 1 < |q| then q[i + 1]
        else -1)
  }

  ghost predicate Chains(s: System) {
    && Distinct(s.grave) && Distinct(s.walk) && Chained(s, s.grave) && Chained(s, s.walk)
    && s.head == First(s.grave) && s.tail == Last(s.grave)
  }

  ghost predicate ReaperOk(s: System) {
    match s.reaper
    case Waiting => s.grave == [] && s.walk == []
    case Looking => s.walk == []
    case Walking(k) => k == First(s.walk)
    case Disposing(k, after) => s.walk != [] && k == s.walk[0] && after == First(s.walk[1..])
  }

  ghost predicate Inv(s: System) {
    (forall t {:trigger ThreadOk(s, t)} :: ThreadOk(s, t)) && Chains(s) && ReaperOk(s)
  }

  // ---------------------------------------------------------------------------------------------
  // Every step keeps the invariant
  // ---------------------------------------------------------------------------------------------

  lemma Assemble(s: System)
    requires Chains(s) && ReaperOk(s) && forall t {:trigger ThreadOk(s, t)} :: ThreadOk(s, t)
    ensures Inv(s)
  {
  }

  lemma ThreadIs(s: System, t: int)
    requires Inv(s)
    ensures ThreadOk(s, t)
  {
  }

  lemma ChainsAre(s: System)
    requires Inv(s)
    ensures Chains(s) && ReaperOk(s)
  {
  }

  /** Thread t loses one of its references: h is t without it. */
  ghost predicate Loses(s: System, t: int, h: Thread) {
    && Exists(s, t)
    && var g := s.threads[t];
       h == g.(phase := h.phase, joined := h.joined) && g.refCount == Refs(h) + 1
       && (h.phase == g.phase
           || (g.asleepOn == -1 && h.phase == Gone && forall u {:trigger Th(s, u)} :: Th(s, u).asleepOn != t))
       && (h.joined == g.joined || (g.phase != Running && forall u {:trigger Th(s, u)} :: Th(s, u).asleepOn != t))
  }

  /** Changing one thread, not linked from or to anything that matters, leaves the chains alone. */
  lemma ChainStays(s: System, r: System, q: seq<int>, t: int)
    requires Chained(s, q) && |r.threads| >= |s.threads| && t !in q
    requires forall u {:trigger Th(r, u)} :: Exists(s, u) && u != t ==>
        Th(r, u).next == Th(s, u).next && Th(r, u).refCount == Th(s, u).refCount
    ensures Chained(r, q)
  {
    forall i | 0 <= i < |q|
      ensures Exists(r, q[i]) && r.threads[q[i]].refCount == 0 && Th(r, q[i]).next == if i + 1 < |q| then q[i + 1]
          else -1
    {
      assert Th(s, q[i]).next == if i + 1 < |q| then q[i + 1] else -1;
      assert q[i] in q;
      assert Th(r, q[i]).refCount == Th(s, q[i]).refCount;
    }
  }

  /** A chain with one more thread at its end. */
  lemma ChainGrows(s: System, r: System, q: seq<int>, t: int)
    requires Chained(s, q) && Distinct(q) && t !in q && Exists(s, t) && |r.threads| == |s.threads|
    requires Th(r, t).next == -1 && Th(r, t).refCount == 0
    requires forall u {:trigger Th(r, u)} :: Exists(s, u) && u != t ==>
        Th(r, u) == if q != [] && u == Last(q) then Th(s, u).(next := t) else Th(s, u)
    ensures Chained(r, q + [t]) && Distinct(q + [t])
  {
    var p := q + [t];
    forall i | 0 <= i < |p|
      ensures Exists(r, p[i]) && r.threads[p[i]].refCount == 0 && Th(r, p[i]).next == if i + 1 < |p| then p[i + 1]
          else -1
    {
      if i < |q| {
        assert q[i] in q;
        assert Th(s, q[i]).next == if i + 1 < |q| then q[i + 1] else -1;
        assert Th(r, q[i]).refCount == Th(s, q[i]).refCount;
        assert q[i] == Last(q) <==> i == |q| - 1;
      }
    }
  }

  lemma LosesThread(s: System, t: int, h: Thread, x: int)
    requires Inv(s) && Loses(s, t, h)
    ensures ThreadOk(Detach(With(s, t, h), t), x)
  {
    hide Inv;
    ThreadIs(s, x);
    ThreadIs(s, t);
    ChainsAre(s);
    LastIn(s.grave);
    assert Exists(s, x) ==> Th(s, x).asleepOn == s.threads[x].asleepOn;
    hide Chained, Distinct;
  }

  lemma LastIn(q: seq<int>)
    ensures q != [] ==> Last(q) in q
  {
  }

  lemma LosesChains(s: System, t: int, h: Thread)
    requires Inv(s) && Loses(s, t, h)
    ensures Chains(Detach(With(s, t, h), t)) && ReaperOk(Detach(With(s, t, h), t))
  {
    hide Inv;
    ThreadIs(s, t);
    ChainsAre(s);
    LastIn(s.grave);
    var r := Detach(With(s, t, h), t);
    if h.refCount == 1 {
      assert Last(s.grave) != t;
      ChainGrows(s, r, s.grave, t);
      LastNotIn(s);
      ChainStaysBut(s, r, t);
    } else {
      ChainStays(s, r, s.grave, t);
      ChainStays(s, r, s.walk, t);
    }
  }

  /** The graveyard and what the Reaper has taken do not meet. */
  lemma LastNotIn(s: System)
    requires Inv(s)
    ensures s.grave != [] ==> Last(s.grave) !in s.walk && Exists(s, Last(s.grave))
  {
    hide Inv;
    ChainsAre(s);
    LastIn(s.grave);
    ThreadIs(s, Last(s.grave));
  }

  /** While others die, the chain that the Reaper walks stays as it is. */
  lemma ChainStaysBut(s: System, r: System, t: int)
    requires Chained(s, s.walk) && |r.threads| == |s.threads| && t !in s.walk
        && (s.grave != [] ==> Last(s.grave) !in s.walk)
    requires forall u {:trigger Th(r, u)} :: Exists(s, u) && u != t ==>
        Th(r, u) == if s.grave != [] && u == Last(s.grave) then Th(s, u).(next := t) else Th(s, u)
    ensures Chained(r, s.walk)
  {
    var q := s.walk;
    forall i | 0 <= i < |q|
      ensures Exists(r, q[i]) && r.threads[q[i]].refCount == 0 && Th(r, q[i]).next == if i + 1 < |q| then q[i + 1]
          else -1
    {
      assert q[i] in q;
      assert Th(s, q[i]).next == if i + 1 < |q| then q[i + 1] else -1;
      assert Th(r, q[i]) == Th(s, q[i]);
    }
  }

  lemma LosesKeeps(s: System, t: int, h: Thread)
    requires Inv(s) && Loses(s, t, h)
    ensures Inv(Detach(With(s, t, h), t))
  {
    hide Inv, Chains, ReaperOk, ThreadOk, Detach;
    var r := Detach(With(s, t, h), t);
    forall x ensures ThreadOk(r, x) { LosesThread(s, t, h, x); }
    LosesChains(s, t, h);
    Assemble(r);
  }

  /** Steps that change one thread only, and neither its references nor where it is in a chain. */
  ghost predicate Touches(s: System, r: System, t: int) {
    && r == s.(threads := r.threads) && |r.threads| == |s.threads| && Exists(s, t)
    && (forall u {:trigger Th(r, u)} :: u != t ==> Th(r, u) == Th(s, u))
    && var g, h := Th(s, t), Th(r, t);
       h.refCount == g.refCount && Refs(h) == Refs(g) && h.owner == g.owner && h.joined == g.joined
           && h.freed == g.freed
       && (h.next == g.next || g.refCount > 0) && (h.phase == g.phase || (h.phase == Dying && h.asleepOn == -1))
       && (h.asleepOn == g.asleepOn || h.asleepOn == -1
           || (h.phase == Running && Exists(s, h.asleepOn) && h.asleepOn != t && Th(s, h.asleepOn).phase == Running
               && Th(s, h.asleepOn).owner == t && !Th(s, h.asleepOn).joined))
  }

  lemma TouchesKeeps(s: System, r: System, t: int)
    requires Inv(s) && Touches(s, r, t)
    ensures Inv(r)
  {
    hide Inv;
    ChainsAre(s);
    ThreadIs(s, t);
    forall x ensures ThreadOk(r, x) {
      ThreadIs(s, x);
      assert Exists(s, x) ==> Th(r, x) == r.threads[x] && Th(s, x) == s.threads[x];
      var o := Th(s, x).asleepOn;
      assert Exists(s, o) ==> Th(r, o) == r.threads[o] && Th(s, o) == s.threads[o];
      var p := Th(r, x).asleepOn;
      assert Exists(s, p) ==> Th(r, p) == r.threads[p] && Th(s, p) == s.threads[p];
    }
    TouchedChain(s, r, s.grave, t);
    TouchedChain(s, r, s.walk, t);
    Assemble(r);
  }

  lemma TouchedChain(s: System, r: System, q: seq<int>, t: int)
    requires Chained(s, q) && Touches(s, r, t)
    ensures Chained(r, q)
  {
    forall i | 0 <= i < |q|
      ensures Exists(r, q[i]) && r.threads[q[i]].refCount == 0 && Th(r, q[i]).next == if i + 1 < |q| then q[i + 1]
          else -1
    {
      assert Th(s, q[i]).next == if i + 1 < |q| then q[i + 1] else -1;
      assert Th(r, q[i]).refCount == Th(s, q[i]).refCount;
    }
  }

  lemma StartKeeps(s: System, owner: int)
    requires Inv(s) && Enabled(s, Start(owner))
    ensures Inv(Step(s, Start(owner)))
  {
    hide Inv;
    var r, n := Step(s, Start(owner)), |s.threads|;
    ChainsAre(s);
    forall u | Exists(s, u) ensures Th(r, u) == Th(s, u) {}
    assert n !in s.grave && n !in s.walk;
    forall x ensures ThreadOk(r, x) {
      ThreadIs(s, x);
      var o := Th(s, x).asleepOn;
      assert Exists(s, o) ==> Th(r, o) == Th(s, o);
    }
    ChainStays(s, r, s.grave, n);
    ChainStays(s, r, s.walk, n);
    Assemble(r);
  }

  /** The thread as Finish leaves it, its joiner awake. */
  lemma FinishKeeps(s: System, t: int)
    requires Inv(s) && Enabled(s, Finish(t))
    ensures Inv(Step(s, Finish(t))) && s.threads[t].refCount > 0
  {
    hide Inv;
    ThreadIs(s, t);
    var o := s.threads[t].owner;
    var u := if Exists(s, o) && s.threads[o].asleepOn == t then With(s, o, s.threads[o].(asleepOn := -1)) else s;
    if u != s { TouchesKeeps(s, u, o); }
    forall x ensures Th(u, x).asleepOn != t { ThreadIs(s, x); }
    ThreadIs(u, t);
    LosesKeeps(u, t, u.threads[t].(phase := Gone));
  }

  lemma JoinKeeps(s: System, t: int)
    requires Inv(s) && Enabled(s, Event.Join(t))
    ensures Inv(Step(s, Event.Join(t))) && s.threads[t].refCount > 0
  {
    hide Inv;
    ThreadIs(s, t);
    forall x ensures Th(s, x).asleepOn != t { ThreadIs(s, x); }
    LosesKeeps(s, t, s.threads[t].(joined := true));
  }

  lemma TakeKeeps(s: System)
    requires Inv(s) && Enabled(s, Take)
    ensures Inv(Step(s, Take))
  {
    hide Inv;
    ChainsAre(s);
    var r := Step(s, Take);
    forall x ensures ThreadOk(r, x) { ThreadIs(s, x); }
    TouchedChain2(s, r, s.grave);
    Assemble(r);
  }

  lemma TouchedChain2(s: System, r: System, q: seq<int>)
    requires Chained(s, q) && r.threads == s.threads
    ensures Chained(r, q)
  {
    forall i | 0 <= i < |q| ensures Th(r, q[i]).next == if i + 1 < |q| then q[i + 1] else -1 {
      assert Th(s, q[i]).next == if i + 1 < |q| then q[i + 1] else -1;
    }
  }

  /** The link that the Reaper reads is that of a thread not yet freed, and leads along the chain. */
  lemma ReadLinkKeeps(s: System)
    requires Inv(s) && Enabled(s, ReadLink)
    ensures Inv(Step(s, ReadLink)) && s.threads[s.reaper.kthread].freed == 0
  {
    hide Inv;
    ChainsAre(s);
    var r := Step(s, ReadLink);
    assert s.walk[0] in s.walk;
    ThreadIs(s, s.walk[0]);
    assert Th(s, s.walk[0]).next == if 1 < |s.walk| then s.walk[1] else -1;
    forall x ensures ThreadOk(r, x) { ThreadIs(s, x); }
    TouchedChain2(s, r, s.grave);
    TouchedChain2(s, r, s.walk);
    Assemble(r);
  }

  /** What the Reaper frees has not been freed, has no references left, and will not run again. */
  lemma DisposeKeeps(s: System)
    requires Inv(s) && Enabled(s, Dispose)
    ensures Inv(Step(s, Dispose))
    ensures var h := s.threads[s.reaper.kthread]; h.freed == 0 && h.phase == Gone && (h.owner == -1 || h.joined)
  {
    hide Inv;
    ChainsAre(s);
    var r, t := Step(s, Dispose), s.reaper.kthread;
    assert t in s.walk;
    ThreadIs(s, t);
    TailFacts(s.walk);
    forall x ensures ThreadOk(r, x) {
      ThreadIs(s, x);
      var o := Th(s, x).asleepOn;
      assert Exists(s, o) && o != t ==> Th(r, o) == Th(s, o);
    }
    assert t !in s.grave;
    ChainStays(s, r, s.grave, t);
    ChainTail(s, s.walk);
    ChainStays(s, r, s.walk[1..], t);
    Assemble(r);
  }

  lemma ChainTail(s: System, q: seq<int>)
    requires Chained(s, q) && Distinct(q) && q != []
    ensures Chained(s, q[1..]) && Distinct(q[1..])
  {
    var p := q[1..];
    forall i | 0 <= i < |p|
      ensures Th(s, p[i]).next == if i + 1 < |p| then p[i + 1] else -1
    {
      assert Th(s, q[i + 1]).next == if i + 2 < |q| then q[i + 2] else -1;
    }
  }

  lemma ReaperMoves(s: System, e: Event)
    requires Inv(s) && Enabled(s, e) && (e == Wait || e == Done)
    ensures Inv(Step(s, e))
  {
    hide Inv;
    ChainsAre(s);
    var r := Step(s, e);
    forall x ensures ThreadOk(r, x) { ThreadIs(s, x); }
    TouchedChain2(s, r, s.grave);
    TouchedChain2(s, r, s.walk);
    Assemble(r);
  }

  lemma TouchStep(s: System, e: Event)
    requires Inv(s) && Enabled(s, e) && (e.Die? || e.Sleep? || e.Link?)
    ensures Touches(s, Step(s, e), if e.Sleep? then s.threads[e.t].owner else e.t)
  {
    hide Inv;
    ThreadIs(s, e.t);
    ThreadIs(s, if e.Sleep? then s.threads[e.t].owner else e.t);
  }

  lemma StepKeeps(s: System, e: Event)
    requires Inv(s) && Enabled(s, e)
    ensures Inv(Step(s, e))
  {
    hide Inv, Step, Enabled;
    match e
    case Start(owner) => StartKeeps(s, owner);
    case Die(t, code) => TouchStep(s, e); TouchesKeeps(s, Step(s, e), t);
    case Finish(t) => FinishKeeps(s, t);
    case Sleep(t) => SleepKeeps(s, t);
    case Join(t) => JoinKeeps(s, t);
    case Link(t, next) => TouchStep(s, e); TouchesKeeps(s, Step(s, e), t);
    case Wait => ReaperMoves(s, e);
    case Take => TakeKeeps(s);
    case ReadLink => ReadLinkKeeps(s);
    case Dispose => DisposeKeeps(s);
    case Done => ReaperMoves(s, e);
  }

  lemma SleepKeeps(s: System, t: int)
    requires Inv(s) && Enabled(s, Sleep(t))
    ensures Inv(Step(s, Sleep(t)))
  {
    TouchStep(s, Sleep(t));
    TouchesKeeps(s, Step(s, Sleep(t)), s.threads[t].owner);
  }

  // ---------------------------------------------------------------------------------------------
  // Runs
  // ---------------------------------------------------------------------------------------------

  ghost predicate Reaches(s: System, es: seq<Event>, r: System)
    decreases |es|
  {
    if es == [] then r == s else Enabled(s, es[0]) && Reaches(Step(s, es[0]), es[1..], r)
  }

  lemma {:induction false} RunKeeps(s: System, es: seq<Event>, r: System)
    requires Inv(s) && Reaches(s, es, r)
    ensures Inv(r)
    decreases |es|
  {
    hide Inv, Step, Enabled;
    if es != [] {
      StepKeeps(s, es[0]);
      RunKeeps(Step(s, es[0]), es[1..], r);
    }
  }

  /** Before the first thread is started. */
  const BOOT := System([], -1, -1, Looking, [], [])

  lemma BootInv()
    ensures Inv(BOOT)
  {
  }

  // ---------------------------------------------------------------------------------------------
  // What a state says of the run that led to it
  // ---------------------------------------------------------------------------------------------

  /** Who the threads were started for, in order; -1 where a thread was started detached. */
  function Starts(es: seq<Event>): seq<int> {
    if es == [] then []
    else
      var e := es[|es| - 1];
      Starts(es[..|es| - 1]) + if e.Start? then [e.owner] else []
  }

  ghost predicate Died(es: seq<Event>, t: int) {
    exists c :: Die(t, c) in es
  }

  /** Thread t is as its events have made it. */
  ghost predicate Follows(es: seq<Event>, s: System, t: int) {
    && (Died(es, t) || Finish(t) in es || Join(t) in es ==> Exists(s, t))
    && (Exists(s, t) && t < |Starts(es)| ==>
          var h := s.threads[t];
          && h.owner == Starts(es)[t]
          && (h.phase != Running <==> Died(es, t)) && (forall c :: Die(t, c) in es ==> c == h.exitCode)
          && (h.phase == Gone <==> Finish(t) in es) && (h.joined <==> Join(t) in es))
  }

  ghost predicate History(es: seq<Event>, s: System) {
    |Starts(es)| == |s.threads| && forall t {:trigger Follows(es, s, t)} :: Follows(es, s, t)
  }

  lemma HistoryAt(es: seq<Event>, s: System, t: int)
    requires History(es, s)
    ensures Follows(es, s, t) && |Starts(es)| == |s.threads|
  {
  }

  lemma StartsMore(es: seq<Event>, e: Event)
    ensures Starts(es + [e]) == Starts(es) + if e.Start? then [e.owner] else []
  {
    assert (es + [e])[..|es + [e]| - 1] == es;
  }

  lemma DiedMore(es: seq<Event>, e: Event, t: int)
    ensures Died(es + [e], t) <==> Died(es, t) || (e.Die? && e.t == t)
  {
    if Died(es, t) {
      var c :| Die(t, c) in es;
      assert Die(t, c) in es + [e];
    }
    if e.Die? && e.t == t { assert Die(t, e.code) in es + [e]; }
    if Died(es + [e], t) {
      var c :| Die(t, c) in es + [e];
    }
  }

  /** What a step changes of a thread that is there: only its own events do. */
  lemma StepThread(s: System, e: Event, t: int)
    requires Enabled(s, e) && Exists(s, t)
    ensures var g, h := s.threads[t], Th(Step(s, e), t);
            && Exists(Step(s, e), t) && h.owner == g.owner
            && h.phase == (if e.Die? && e.t == t then Dying else if e == Finish(t) then Gone else g.phase)
            && h.exitCode == (if e.Die? && e.t == t then e.code else g.exitCode)
            && h.joined == (g.joined || e == Join(t))
  {
    hide Detach;
    match e
    case Finish(u) =>
      var o := s.threads[u].owner;
      var v := if Exists(s, o) && s.threads[o].asleepOn == u then With(s, o, s.threads[o].(asleepOn := -1)) else s;
      DetachFacts(With(v, u, v.threads[u].(phase := Gone)), u, t);
    case Join(u) => DetachFacts(With(s, u, s.threads[u].(joined := true)), u, t);
    case _ =>
  }

  lemma DetachFacts(s: System, t: int, u: int)
    requires Exists(s, t)
    ensures |Detach(s, t).threads| == |s.threads|
    ensures var g, h := Th(s, u), Th(Detach(s, t), u);
            h.phase == g.phase && h.exitCode == g.exitCode && h.owner == g.owner && h.joined == g.joined
  {
  }

  lemma StepThreads(s: System, e: Event)
    requires Enabled(s, e)
    ensures |Step(s, e).threads| == |s.threads| + if e.Start? then 1 else 0
    ensures e.Start? ==> var h := Th(Step(s, e), |s.threads|);
              h.owner == e.owner && h.phase == Running && !h.joined
  {
    hide Detach;
    if e.Finish? {
      var t, o := e.t, s.threads[e.t].owner;
      var v := if Exists(s, o) && s.threads[o].asleepOn == t then With(s, o, s.threads[o].(asleepOn := -1)) else s;
      DetachFacts(With(v, t, v.threads[t].(phase := Gone)), t, t);
    }
    if e.Join? { DetachFacts(With(s, e.t, s.threads[e.t].(joined := true)), e.t, e.t); }
  }

  lemma StepFollows(es: seq<Event>, s: System, e: Event, t: int)
    requires History(es, s) && Enabled(s, e)
    ensures Follows(es + [e], Step(s, e), t)
  {
    HistoryAt(es, s, t);
    StartsMore(es, e);
    DiedMore(es, e, t);
    StepThreads(s, e);
    if Exists(s, t) { StepThread(s, e, t); }
    if (e.Die? && e.t == t) || e == Finish(t) || e == Join(t) { OwnEvents(s, e, t); }
    hide Step, Starts, Enabled, Died, History;
    assert forall c :: Die(t, c) in es + [e] <==> Die(t, c) in es || e == Die(t, c);
    assert forall c :: Die(t, c) in es ==> Died(es, t);
  }

  /** Only a thread that is there dies or is joined; and it dies once. */
  lemma OwnEvents(s: System, e: Event, t: int)
    requires Enabled(s, e) && ((e.Die? && e.t == t) || e == Finish(t) || e == Join(t))
    ensures Exists(s, t) && (e.Die? ==> s.threads[t].phase == Running)
        && (e == Finish(t) ==> s.threads[t].phase == Dying)
  {
  }

  lemma {:induction false} RunFollows(past: seq<Event>, s: System, es: seq<Event>, r: System)
    requires History(past, s) && Reaches(s, es, r)
    ensures History(past + es, r)
    decreases |es|
  {
    hide Step, Enabled;
    if es == [] {
      assert past + es == past;
    } else {
      var e := es[0];
      StartsMore(past, e);
      StepThreads(s, e);
      forall t ensures Follows(past + [e], Step(s, e), t) { StepFollows(past, s, e, t); }
      RunFollows(past + [e], Step(s, e), es[1..], r);
      assert past + [e] + es[1..] == past + es;
    }
  }

  /** A state reached from the start has exactly the threads that were started; each has the owner it was started for,
      has exited if and with what it called Exit, is gone if that has finished, and is joined if it has been. */
  lemma RunTells(es: seq<Event>, r: System, t: int)
    requires Reaches(BOOT, es, r)
    ensures |r.threads| == |Starts(es)|
    ensures Exists(r, t) ==>
              var h := r.threads[t];
              && h.owner == Starts(es)[t]
              && (h.phase != Running <==> Died(es, t)) && (forall c :: Die(t, c) in es ==> c == h.exitCode)
              && (h.phase == Gone <==> Finish(t) in es) && (h.joined <==> Join(t) in es)
  {
    hide Reaches;
    forall t ensures Follows([], BOOT, t) {}
    RunFollows([], BOOT, es, r);
    assert [] + es == es;
    HistoryAt(es, r, t);
  }

  /** In every run a thread's pages are freed at most once, and only after its Exit has finished and, unless it was
      started detached, the one it was started for has joined it; and nobody sleeps in the join queue of a thread
      that is gone. */
  lemma EveryRunIsSafe(es: seq<Event>, r: System, t: int)
    requires Reaches(BOOT, es, r) && Exists(r, t)
    ensures r.threads[t].freed <= 1 && 0 <= r.threads[t].refCount <= 2
    ensures |Starts(es)| == |r.threads| && r.threads[t].owner == Starts(es)[t]
    ensures r.threads[t].freed == 1 ==> Finish(t) in es && (Starts(es)[t] == -1 || Join(t) in es)
    ensures Finish(t) in es ==> forall u :: 0 <= u < |r.threads| ==> r.threads[u].asleepOn != t
  {
    BootInv();
    RunKeeps(BOOT, es, r);
    RunTells(es, r, t);
    hide Inv, Reaches, Starts;
    ThreadIs(r, t);
    forall u | 0 <= u < |r.threads|
      ensures Finish(t) in es ==> r.threads[u].asleepOn != t
    {
      ThreadIs(r, u);
    }
  }

  /** When the Reaper has nothing left to do, every thread without references has been freed. */
  lemma NothingForgotten(es: seq<Event>, r: System, t: int)
    requires Reaches(BOOT, es, r) && Exists(r, t) && r.reaper == Waiting
    ensures |Starts(es)| == |r.threads|
    ensures r.threads[t].refCount == 0 <==> Finish(t) in es && (Starts(es)[t] == -1 || Join(t) in es)
    ensures r.threads[t].refCount == 0 ==> r.threads[t].freed == 1
  {
    BootInv();
    RunKeeps(BOOT, es, r);
    RunTells(es, r, t);
    hide Inv, Reaches, Starts;
    ThreadIs(r, t);
    ChainsAre(r);
  }

  /** While a thread without references has not been freed, the Reaper is not waiting and can go on. */
  lemma ReaperGoesOn(es: seq<Event>, r: System, t: int)
    requires Reaches(BOOT, es, r) && Exists(r, t) && Finish(t) in es && r.threads[t].freed == 0
    requires |Starts(es)| == |r.threads| && (Starts(es)[t] == -1 || Join(t) in es)
    ensures Enabled(r, Take) || Enabled(r, ReadLink) || Enabled(r, Dispose) || Enabled(r, Done)
  {
    BootInv();
    RunKeeps(BOOT, es, r);
    RunTells(es, r, t);
    hide Inv, Reaches, Starts;
    ThreadIs(r, t);
    ChainsAre(r);
  }

  /** Exactly when a thread may exit, finish its exit, or be joined, in terms of what has happened: its owner, running
      and not asleep in another join, may join it once it has called Exit, and once. */
  lemma WhatMayHappen(es: seq<Event>, r: System, t: int, c: int)
    requires Reaches(BOOT, es, r)
    ensures |Starts(es)| == |r.threads|
    ensures Enabled(r, Die(t, c)) <==> Exists(r, t) && !Died(es, t) && r.threads[t].asleepOn == -1
    ensures Enabled(r, Finish(t)) <==> Exists(r, t) && Died(es, t) && Finish(t) !in es
    ensures Enabled(r, Join(t)) <==>
            Exists(r, t) && Died(es, t) && Join(t) !in es
            && var o := Starts(es)[t]; o >= 0 && !Died(es, o) && Exists(r, o) && r.threads[o].asleepOn == -1
    ensures Enabled(r, Join(t)) ==> Die(t, r.threads[t].exitCode) in es
    ensures Enabled(r, Sleep(t)) <==>
            Exists(r, t) && !Died(es, t) && Join(t) !in es
            && var o := Starts(es)[t]; o >= 0 && o != t && !Died(es, o) && Exists(r, o) && r.threads[o].asleepOn == -1
    ensures Enabled(r, Sleep(t)) ==> Th(Step(r, Sleep(t)), Starts(es)[t]).asleepOn == t
    ensures Enabled(r, Start(t)) <==> t == -1 || (Exists(r, t) && !Died(es, t) && r.threads[t].asleepOn == -1)
  {
    RunTells(es, r, t);
    if Exists(r, t) { RunTells(es, r, Starts(es)[t]); }
    hide Reaches, Starts;
    if Exists(r, t) && Died(es, t) {
      var d :| Die(t, d) in es;
      assert d == r.threads[t].exitCode;
    }
  }

  /** A thread's exit code is what it exited with, however long its owner takes to join. */
  lemma {:induction false} ExitCodeStays(s: System, es: seq<Event>, r: System, t: int)
    requires Inv(s) && Reaches(s, es, r) && Exists(s, t) && s.threads[t].phase != Running
    ensures Exists(r, t) && r.threads[t].phase != Running && r.threads[t].exitCode == s.threads[t].exitCode
    decreases |es|
  {
    if es != [] {
      StepKeeps(s, es[0]);
      hide Inv;
      CodeStays(s, es[0], t);
      ExitCodeStays(Step(s, es[0]), es[1..], r, t);
    }
  }

  /** Giving up a reference changes no phase and no exit code. */
  lemma DetachCode(s: System, t: int, u: int)
    requires Exists(s, t)
    ensures |Detach(s, t).threads| == |s.threads|
    ensures Th(Detach(s, t), u).phase == Th(s, u).phase && Th(Detach(s, t), u).exitCode == Th(s, u).exitCode
  {
  }

  lemma FinishCode(s: System, t: int, u: int)
    requires Enabled(s, Finish(t)) && Exists(s, u)
    ensures var r := Finished(s, t);
            |r.threads| == |s.threads| && Th(r, u).exitCode == Th(s, u).exitCode
                && (Th(s, u).phase != Running ==> Th(r, u).phase != Running)
  {
    hide Detach;
    var o := s.threads[t].owner;
    var v := if Exists(s, o) && s.threads[o].asleepOn == t then With(s, o, s.threads[o].(asleepOn := -1)) else s;
    DetachCode(With(v, t, v.threads[t].(phase := Gone)), t, u);
  }

  lemma CodeStays(s: System, e: Event, t: int)
    requires Enabled(s, e) && Exists(s, t) && s.threads[t].phase != Running
    ensures var r := Step(s, e);
        Exists(r, t) && r.threads[t].phase != Running && r.threads[t].exitCode == s.threads[t].exitCode
  {
    hide Detach, Finished;
    if e.Finish? { FinishCode(s, e.t, t); }
    if e.Join? { DetachCode(With(s, e.t, s.threads[e.t].(joined := true)), e.t, t); }
  }

  /** What Join returns is the code that the thread called Exit with. */
  lemma JoinReturnsExitCode(s: System, t: int, code: int, es: seq<Event>, r: System)
    requires Inv(s) && Enabled(s, Die(t, code)) && Reaches(Step(s, Die(t, code)), es, r) && Enabled(r, Event.Join(t))
    ensures r.threads[t].exitCode == code
  {
    StepKeeps(s, Die(t, code));
    hide Inv;
    ExitCodeStays(Step(s, Die(t, code)), es, r, t);
  }

  /** The count is positive wherever a reference is given up. */
  lemma DetachIsLegal(es: seq<Event>, s: System, e: Event)
    requires Reaches(BOOT, es, s) && Enabled(s, e) && (e.Finish? || e.Join?)
    ensures s.threads[e.t].refCount > 0
  {
    BootInv();
    RunKeeps(BOOT, es, s);
    hide Inv;
    if e.Finish? { FinishKeeps(s, e.t); } else { JoinKeeps(s, e.t); }
  }
}
