/** One semaphore, with its mutex and condition (src/geekos/synch.c), as a state machine. A step is one
    statement of P, V, Mutex_Lock, Mutex_Unlock or Cond_Wait, or a context switch. Threads are numbers. */
module Synch {
  import opened Seqs
  import opened ThreadQueues

  datatype Op = P | V

  /** The statement a thread is about to execute; the comment says which. */
  datatype Label =
    | Out        // none: the thread is elsewhere
    | Entry      // Mutex_Lock: g_preemptionDisabled = true
    | LockTest   // Mutex_Lock_Imp: while (state == LOCKED)
    | MWait      // Mutex_Wait: Disable_Interrupts
    | MRelease   // Mutex_Wait: g_preemptionDisabled = false
    | MSleep     // Wait on the mutex queue: Enqueue_Thread and Schedule
    | MAwake     // Mutex_Wait after Wait: g_preemptionDisabled = true, Enable_Interrupts
    | Take       // Mutex_Lock_Imp: state = LOCKED, owner = g_currentThread
    | Taken      // end of Mutex_Lock and Cond_Wait: g_preemptionDisabled = false
    | Body       // P: while (count <= 0); V: count++
    | Second     // P: count--; V: Cond_Broadcast
    | CEntry     // Cond_Wait: g_preemptionDisabled = true
    | CUnlock    // Cond_Wait, Mutex_Unlock_Imp: state = UNLOCKED, owner = 0
    | CWake      // Cond_Wait, Mutex_Unlock_Imp: Wake_Up_One on the mutex queue if that is not empty
    | COff       // Cond_Wait: Disable_Interrupts
    | CRelease   // Cond_Wait: g_preemptionDisabled = false
    | CSleep     // Wait on the condition queue
    | CAwake     // Cond_Wait after Wait: g_preemptionDisabled = true, Enable_Interrupts
    | UEntry     // Mutex_Unlock: g_preemptionDisabled = true
    | Unlock     // Mutex_Unlock_Imp: state = UNLOCKED, owner = 0
    | UWake      // Mutex_Unlock_Imp: Wake_Up_One on the mutex queue if that is not empty
    | UDone      // Mutex_Unlock: g_preemptionDisabled = false
    | Leave      // Disable_Interrupts and return

  datatype PC = PC(op: Op, at: Label)

  /** irq: interrupts enabled. noPreempt: g_preemptionDisabled. owner: -1 for none. ups and downs count the
      increments and decrements of count, which is 32 bits wide, from its value at the start. */
  datatype State = State(
    pc: seq<PC>, prio: seq<int>, cur: nat, irq: bool, noPreempt: bool,
    locked: bool, owner: int, mutexQ: seq<nat>, condQ: seq<nat>,
    count: int, start: int, ups: nat, downs: nat)

  const WORD := 0x1_0000_0000

  /** Run: the current thread executes its statement; next is whom Schedule picks if it is called. Preempt: an
      interrupt gives the CPU to next. Call: the current thread, elsewhere so far, calls P or V. Yield: it gives
      up the CPU elsewhere. */
  datatype Event = Run(next: nat) | Preempt(next: nat) | Call(op: Op) | Yield(next: nat)

  function At(s: State, t: int): Label {
    if 0 <= t < |s.pc| then s.pc[t].at else Out
  }

  function OpOf(s: State, t: int): Op {
    if 0 <= t < |s.pc| then s.pc[t].op else P
  }

  predicate Waiting(s: State, t: int) {
    t in s.mutexQ || t in s.condQ
  }

  // ---------------------------------------------------------------------------------------------
  // Steps
  // ---------------------------------------------------------------------------------------------

  function WithoutBest(s: State, q: seq<nat>): seq<nat>
    requires q != []
  {
    Without(q, BestOf(s.prio, q, |q|))
  }

  function WakeOne(s: State): State {
    if s.mutexQ == [] then s else s.(mutexQ := WithoutBest(s, s.mutexQ))
  }

  /** Schedule: the CPU goes to next, which resumes where it left off: with interrupts off inside Wait, and on
      everywhere else. */
  function Switch(s: State, next: nat): State {
    s.(cur := next, irq := At(s, next) != MAwake && At(s, next) != CAwake)
  }

  /** Where the current thread goes. */
  function Goto(s: State): Label {
    match At(s, s.cur)
    case Out => Out
    case Entry => LockTest
    case LockTest => if s.locked then MWait else Take
    case MWait => MRelease
    case MRelease => MSleep
    case MSleep => MAwake
    case MAwake => LockTest
    case Take => Taken
    case Taken => Body
    case Body => if OpOf(s, s.cur) == P && s.count <= 0 then CEntry else Second
    case Second => UEntry
    case CEntry => CUnlock
    case CUnlock => CWake
    case CWake => COff
    case COff => CRelease
    case CRelease => CSleep
    case CSleep => CAwake
    case CAwake => LockTest
    case UEntry => Unlock
    case Unlock => UWake
    case UWake => UDone
    case UDone => Leave
    case Leave => Out
  }

  /** What else its statement does. */
  function Effect(s: State, next: nat): State {
    match At(s, s.cur)
    case Entry => s.(noPreempt := true)
    case MWait => s.(irq := false)
    case MRelease => s.(noPreempt := false)
    case MSleep => Switch(s.(mutexQ := s.mutexQ + [s.cur]), next)
    case MAwake => s.(noPreempt := true, irq := true)
    case Take => s.(locked := true, owner := s.cur)
    case Taken => s.(noPreempt := false)
    case Body => if OpOf(s, s.cur) == V then s.(count := (s.count + 1) % WORD, ups := s.ups + 1) else s
    case Second => if OpOf(s, s.cur) == V then s.(condQ := [])
        else s.(count := (s.count - 1) % WORD, downs := s.downs + 1)
    case CEntry => s.(noPreempt := true)
    case CUnlock => s.(locked := false, owner := -1)
    case CWake => WakeOne(s)
    case COff => s.(irq := false)
    case CRelease => s.(noPreempt := false)
    case CSleep => Switch(s.(condQ := s.condQ + [s.cur]), next)
    case CAwake => s.(noPreempt := true, irq := true)
    case UEntry => s.(noPreempt := true)
    case Unlock => s.(locked := false, owner := -1)
    case UWake => WakeOne(s)
    case UDone => s.(noPreempt := false)
    case Leave => s.(irq := false)
    case _ => s
  }

  function Exec(s: State, next: nat): State
    requires s.cur < |s.pc|
  {
    Effect(s, next).(pc := s.pc[s.cur := s.pc[s.cur].(at := Goto(s))])
  }

  predicate Sleeps(at: Label) {
    at.MSleep? || at.CSleep?
  }

  predicate CanSwitchTo(s: State, next: nat) {
    next < |s.pc| && next != s.cur && !Waiting(s, next)
  }

  predicate Enabled(s: State, e: Event) {
    s.cur < |s.pc| &&
    match e
    case Run(next) => At(s, s.cur) != Out && (Sleeps(At(s, s.cur)) ==> CanSwitchTo(s, next))
    case Preempt(next) => s.irq && !s.noPreempt && CanSwitchTo(s, next)
    case Call(op) => At(s, s.cur) == Out
    case Yield(next) => At(s, s.cur) == Out && CanSwitchTo(s, next)
  }

  function Step(s: State, e: Event): State
    requires Enabled(s, e)
  {
    match e
    case Run(next) => Exec(s, next)
    case Preempt(next) => Switch(s, next)
    case Call(op) => s.(pc := s.pc[s.cur := PC(op, Entry)], irq := true)
    case Yield(next) => Switch(s, next)
  }

  // ---------------------------------------------------------------------------------------------
  // What the KASSERTs demand
  // ---------------------------------------------------------------------------------------------

  /** Every assertion the next statement of the current thread would check holds: interrupts on at the public
      entry points; preemption off inside, and the mutex held or not as it should be; interrupts off and
      preemption on when Schedule is entered. */
  predicate AssertsHold(s: State) {
    var held := s.locked && s.owner == s.cur;
    match At(s, s.cur)
    case Entry => s.irq
    case LockTest => s.noPreempt && (s.locked ==> !held)
    case MWait => s.locked && s.noPreempt
    case MSleep => !s.irq && !s.noPreempt
    case Second => s.irq
    case CEntry => s.irq && held
    case CUnlock => s.noPreempt && held
    case CSleep => !s.irq && !s.noPreempt
    case UEntry => s.irq
    case Unlock => s.noPreempt && held
    case _ => true
  }

  // ---------------------------------------------------------------------------------------------
  // The invariant
  // ---------------------------------------------------------------------------------------------

  /** Labels reached with preemption disabled. */
  predicate NoPreempt(at: Label) {
    at.LockTest? || at.MWait? || at.MRelease? || at.Take? || at.Taken? || at.CUnlock? || at.CWake? || at.COff?
        || at.CRelease? || at.Unlock? || at.UWake? || at.UDone?
  }

  predicate IrqOff(at: Label) {
    at.MRelease? || at.MSleep? || at.MAwake? || at.CRelease? || at.CSleep? || at.CAwake?
  }

  /** Labels of a thread that holds the mutex. */
  predicate Holding(at: Label) {
    at.Taken? || at.Body? || at.Second? || at.CEntry? || at.CUnlock? || at.UEntry? || at.Unlock?
  }

  /** Labels on the way from an unsuccessful test of count to the condition queue. */
  predicate GoingToWait(at: Label) {
    at.CEntry? || at.CUnlock? || at.CWake? || at.COff? || at.CRelease? || at.CSleep?
  }

  ghost predicate Flags(s: State) {
    && s.cur < |s.pc|
    && s.noPreempt == NoPreempt(At(s, s.cur))
    && (At(s, s.cur) != Out ==> s.irq == !IrqOff(At(s, s.cur)))
    && (forall t {:trigger At(s, t)} :: t != s.cur ==> !NoPreempt(At(s, t)) && !Sleeps(At(s, t)))
  }

  ghost predicate Queues(s: State) {
    && Distinct(s.mutexQ) && Distinct(s.condQ)
    && (forall t {:trigger t in s.mutexQ} :: t in s.mutexQ ==> At(s, t).MAwake? && t != s.cur)
    && (forall t {:trigger t in s.condQ} :: t in s.condQ ==> At(s, t).CAwake? && t != s.cur)
  }

  /** At most one thread holds the mutex: its owner. */
  ghost predicate Exclusive(s: State) {
    && (forall t {:trigger At(s, t)} :: Holding(At(s, t)) <==> s.locked && s.owner == t)
    && (var at := At(s, s.cur); at.MWait? || at.MRelease? || at.MSleep? ==> s.locked)
    && (At(s, s.cur) == Take ==> !s.locked)
    && (At(s, s.cur).CWake? || At(s, s.cur).UWake? ==> !s.locked)
  }

  ghost predicate Counts(s: State) {
    && 0 <= s.count < WORD && s.count == (s.start + s.ups - s.downs) % WORD
    && (forall t {:trigger At(s, t)} :: GoingToWait(At(s, t)) ==> s.count == 0 && OpOf(s, t) == P)
    && (forall t {:trigger At(s, t)} :: At(s, t).Second? && OpOf(s, t) == P ==> s.count > 0)
    && (forall t {:trigger At(s, t)} :: At(s, t).CAwake? ==> OpOf(s, t) == P)
  }

  predicate Contends(at: Label) {
    at.MAwake? || at.LockTest? || at.Take? || at.CWake? || at.UWake?
  }

  /** Not waiting, and on its way to trying the mutex again, or about to wake one that is. */
  ghost predicate Contender(s: State, t: int) {
    0 <= t < |s.pc| && !Waiting(s, t) && Contends(At(s, t))
  }

  /** No lost wakeup on the mutex. */
  ghost predicate MutexWakes(s: State) {
    !s.locked && s.mutexQ != [] ==> exists t :: Contender(s, t)
  }

  /** No lost wakeup on the condition: a waiter means count is 0, or V has yet to broadcast. */
  ghost predicate CondWakes(s: State) {
    s.condQ != [] ==> s.count == 0 || (s.locked && At(s, s.owner) == Second && OpOf(s, s.owner) == V)
  }

  ghost predicate Inv(s: State) {
    Flags(s) && Queues(s) && Exclusive(s) && Counts(s) && MutexWakes(s) && CondWakes(s)
  }

  /** Every thread is elsewhere, the mutex free, the queues empty. */
  ghost predicate Initial(s: State) {
    && s.cur < |s.pc| && (forall t {:trigger At(s, t)} :: At(s, t).Out?)
    && !s.noPreempt && !s.locked && s.owner == -1 && s.mutexQ == [] && s.condQ == []
    && 0 <= s.count < WORD && s.start == s.count && s.ups == 0 && s.downs == 0
  }

  lemma InitialInv(s: State)
    requires Initial(s)
    ensures Inv(s)
  {
  }

  // ---------------------------------------------------------------------------------------------
  // Every step keeps the invariant
  // ---------------------------------------------------------------------------------------------

  lemma WithoutBestFacts(s: State, q: seq<nat>)
    requires Distinct(q) && q != []
    ensures var r := WithoutBest(s, q); var b := q[BestOf(s.prio, q, |q|)];
            Distinct(r) && b in q && forall t {:trigger t in r} :: t in r <==> t in q && t != b
  {
    WithoutFacts(q, BestOf(s.prio, q, |q|));
  }

  /** A step changes no thread's place but the current one's, and no thread's operation unless it calls. */
  lemma StepFrame(s: State, e: Event, t: int)
    requires Enabled(s, e)
    ensures |Step(s, e).pc| == |s.pc|
    ensures t != s.cur ==> At(Step(s, e), t) == At(s, t)
    ensures e.Run? ==> At(Step(s, e), s.cur) == Goto(s)
    ensures t != s.cur || !e.Call? ==> OpOf(Step(s, e), t) == OpOf(s, t)
  {
    hide Effect, Goto;
  }

  lemma StepFlags(s: State, e: Event)
    requires Flags(s) && Queues(s) && Enabled(s, e)
    ensures Flags(Step(s, e))
  {
    var r := Step(s, e);
    forall t | t != r.cur ensures !NoPreempt(At(r, t)) && !Sleeps(At(r, t)) {
      StepFrame(s, e, t);
    }
    StepFrame(s, e, r.cur);
  }

  /** Who may be in a queue after a step. */
  lemma StepMutexQ(s: State, e: Event)
    requires Flags(s) && Queues(s) && Enabled(s, e)
    ensures var r := Step(s, e);
            && Distinct(r.mutexQ)
            && (forall t {:trigger t in r.mutexQ} :: t in r.mutexQ ==>
                t in s.mutexQ || (t == s.cur && e.Run? && At(s, t).MSleep?))
  {
    if s.mutexQ != [] { WithoutBestFacts(s, s.mutexQ); }
    assert s.cur !in s.mutexQ;
    hide WithoutBest, Flags, Goto;
  }

  lemma StepCondQ(s: State, e: Event)
    requires Flags(s) && Queues(s) && Enabled(s, e)
    ensures var r := Step(s, e);
            && Distinct(r.condQ)
            && (forall t {:trigger t in r.condQ} :: t in r.condQ ==>
                t in s.condQ || (t == s.cur && e.Run? && At(s, t).CSleep?))
  {
    assert s.cur !in s.condQ;
    hide WithoutBest, Flags, Goto;
  }

  lemma StepQueues(s: State, e: Event)
    requires Flags(s) && Queues(s) && Enabled(s, e)
    ensures Queues(Step(s, e))
  {
    var r := Step(s, e);
    StepMutexQ(s, e);
    StepCondQ(s, e);
    assert s.cur !in s.mutexQ && s.cur !in s.condQ;
    NextWaits(s, e);
    hide Effect, Flags, Distinct;
    forall t: nat
      ensures (t in r.mutexQ ==> At(r, t) == MAwake && t != r.cur)
          && (t in r.condQ ==> At(r, t) == CAwake && t != r.cur)
    {
      StepFrame(s, e, t);
    }
  }

  /** The thread that has the CPU after a step: the same unless there is a switch, and then one not waiting. */
  lemma NextWaits(s: State, e: Event)
    requires Enabled(s, e)
    ensures var r := Step(s, e);
            if e.Call? || (e.Run? && !Sleeps(At(s, s.cur))) then r.cur == s.cur else CanSwitchTo(s, r.cur)
  {
  }

  lemma StepHolder(s: State, e: Event, t: int)
    requires Flags(s) && Exclusive(s) && Enabled(s, e)
    ensures Holding(At(Step(s, e), t)) <==> Step(s, e).locked && Step(s, e).owner == t
  {
    StepFrame(s, e, t);
    assert Holding(At(s, s.cur)) <==> s.locked && s.owner == s.cur;
    assert Holding(At(s, t)) <==> s.locked && s.owner == t;
    hide WithoutBest;
  }

  lemma StepExclusive(s: State, e: Event)
    requires Flags(s) && Exclusive(s) && Enabled(s, e)
    ensures Exclusive(Step(s, e))
  {
    var r := Step(s, e);
    forall t ensures Holding(At(r, t)) <==> r.locked && r.owner == t { StepHolder(s, e, t); }
    StepFrame(s, e, r.cur);
    hide WithoutBest, Holding;
  }

  /** When count changes. */
  lemma StepCount(s: State, e: Event)
    requires Enabled(s, e)
    ensures var r := Step(s, e); var op := OpOf(s, s.cur);
            if e.Run? && At(s, s.cur).Body? && op == V
                then r.count == (s.count + 1) % WORD && r.ups == s.ups + 1 && r.downs == s.downs && r.start == s.start
            else if e.Run? && At(s, s.cur).Second? && op == P
                then r.count == (s.count - 1) % WORD && r.ups == s.ups && r.downs == s.downs + 1 && r.start == s.start
            else r.count == s.count && r.ups == s.ups && r.downs == s.downs && r.start == s.start
  {
    hide Goto, WithoutBest;
  }

  lemma Balance(start: int, ups: int, downs: int, count: int)
    requires count == (start + ups - downs) % WORD
    ensures (count + 1) % WORD == (start + (ups + 1) - downs) % WORD
    ensures (count - 1) % WORD == (start + ups - (downs + 1)) % WORD
  {
  }

  lemma StepCounts(s: State, e: Event)
    requires Flags(s) && Exclusive(s) && Counts(s) && Enabled(s, e)
    ensures Counts(Step(s, e))
  {
    var r := Step(s, e);
    StepCount(s, e);
    Balance(s.start, s.ups, s.downs, s.count);
    forall t ensures (GoingToWait(At(r, t)) ==> r.count == 0 && OpOf(r, t) == P)
        && (At(r, t) == Second && OpOf(r, t) == P ==> r.count > 0)
              && (At(r, t) == CAwake ==> OpOf(r, t) == P) {
      StepThreadCounts(s, e, t);
    }
    hide Step, Exclusive, Flags, At, OpOf;
  }

  lemma StepThreadCounts(s: State, e: Event, t: int)
    requires Flags(s) && Exclusive(s) && Counts(s) && Enabled(s, e)
    ensures var r := Step(s, e);
            && (GoingToWait(At(r, t)) ==> r.count == 0 && OpOf(r, t) == P)
                && (At(r, t) == Second && OpOf(r, t) == P ==> r.count > 0)
            && (At(r, t) == CAwake ==> OpOf(r, t) == P)
  {
    StepFrame(s, e, t);
    StepCount(s, e);
    assert Holding(At(s, s.cur)) <==> s.locked && s.owner == s.cur;
    assert Holding(At(s, t)) <==> s.locked && s.owner == t;
    hide Effect;
  }

  /** Being woken makes a contender. */
  lemma WokenContends(s: State, next: nat)
    requires Flags(s) && Queues(s) && Enabled(s, Run(next)) && s.mutexQ != []
        && (At(s, s.cur).CWake? || At(s, s.cur).UWake?)
    ensures exists t :: Contender(Step(s, Run(next)), t)
  {
    var b := s.mutexQ[BestOf(s.prio, s.mutexQ, |s.mutexQ|)];
    WithoutBestFacts(s, s.mutexQ);
    assert b in s.mutexQ && At(s, b).MAwake? && b !in s.condQ;
    StepFrame(s, Run(next), b);
    hide WithoutBest, BestOf, Goto;
    assert Contender(Step(s, Run(next)), b);
  }

  lemma StillContends(s: State, e: Event, t: int)
    requires Flags(s) && Queues(s) && Enabled(s, e) && Contender(s, t)
    requires t != s.cur || !e.Run? || (!s.locked && (At(s, t).MAwake? || At(s, t).LockTest?))
    ensures Contender(Step(s, e), t)
  {
    StepFrame(s, e, t);
    StepMutexQ(s, e);
    StepCondQ(s, e);
    hide Effect, Queues;
  }

  lemma StepMutexWakes(s: State, e: Event)
    requires Flags(s) && Queues(s) && Exclusive(s) && MutexWakes(s) && Enabled(s, e)
    ensures MutexWakes(Step(s, e))
  {
    var r := Step(s, e);
    if !r.locked && r.mutexQ != [] {
      if s.locked {
        Unlocked(s, e);
      } else {
        QueueGrows(s, e);
        var t :| Contender(s, t);
        if t == s.cur && e.Run? && !At(s, t).MAwake? && !At(s, t).LockTest? {
          NotTaken(s, e);
          WokenContends(s, e.next);
        } else {
          StillContends(s, e, t);
        }
      }
    }
  }

  lemma NotTaken(s: State, e: Event)
    requires Enabled(s, e) && e.Run? && !Step(s, e).locked
    ensures !At(s, s.cur).Take?
  {
  }

  /** Whoever frees the mutex is about to wake a waiter. */
  lemma Unlocked(s: State, e: Event)
    requires Flags(s) && Queues(s) && Enabled(s, e) && s.locked && !Step(s, e).locked
    ensures Contender(Step(s, e), s.cur)
  {
    assert e.Run? && (At(s, s.cur).CUnlock? || At(s, s.cur).Unlock?);
    assert s.cur !in s.mutexQ && s.cur !in s.condQ;
  }

  /** No one joins the queue of a free mutex. */
  lemma QueueGrows(s: State, e: Event)
    requires Flags(s) && Exclusive(s) && Enabled(s, e) && !s.locked && Step(s, e).mutexQ != []
    ensures s.mutexQ != []
  {
  }

  lemma StepCondWakes(s: State, e: Event)
    requires Flags(s) && Exclusive(s) && Counts(s) && CondWakes(s) && Enabled(s, e)
    ensures CondWakes(Step(s, e))
  {
    var r := Step(s, e);
    StepCount(s, e);
    assert Holding(At(s, s.cur)) <==> s.locked && s.owner == s.cur;
    StepFrame(s, e, s.owner);
    StepFrame(s, e, s.cur);
    assert GoingToWait(At(s, s.cur)) ==> s.count == 0;
    hide WithoutBest;
  }

  lemma StepKeepsInv(s: State, e: Event)
    requires Inv(s) && Enabled(s, e)
    ensures Inv(Step(s, e))
  {
    StepFlags(s, e);
    StepQueues(s, e);
    StepExclusive(s, e);
    StepCounts(s, e);
    StepMutexWakes(s, e);
    StepCondWakes(s, e);
    hide Step, Flags, Queues, Exclusive, Counts, MutexWakes, CondWakes;
  }

  // ---------------------------------------------------------------------------------------------
  // Runs
  // ---------------------------------------------------------------------------------------------

  ghost predicate Reaches(s: State, es: seq<Event>, r: State)
    decreases |es|
  {
    if es == [] then r == s else Enabled(s, es[0]) && Reaches(Step(s, es[0]), es[1..], r)
  }

  lemma {:induction false} RunKeepsInv(s: State, es: seq<Event>, r: State)
    requires Inv(s) && Reaches(s, es, r)
    ensures Inv(r)
    decreases |es|
  {
    if es != [] {
      StepKeepsInv(s, es[0]);
      RunKeepsInv(Step(s, es[0]), es[1..], r);
    }
  }

  /** In every run no two threads hold the mutex, no assertion fails, and count is the initial value plus the
      increments minus the decrements, none of which was made at zero. */
  lemma EveryRunIsSafe(s: State, es: seq<Event>, r: State)
    requires Initial(s) && Reaches(s, es, r)
    ensures forall t, u {:trigger At(r, t), At(r, u)} :: Holding(At(r, t)) && Holding(At(r, u)) ==> t == u
    ensures AssertsHold(r)
    ensures r.count == (r.start + r.ups - r.downs) % WORD
    ensures At(r, r.cur).Second? && OpOf(r, r.cur) == P ==> r.count > 0
  {
    InitialInv(s);
    RunKeepsInv(s, es, r);
    AssertionsHold(r);
  }

  lemma AssertionsHold(s: State)
    requires Inv(s)
    ensures AssertsHold(s)
  {
    assert Holding(At(s, s.cur)) <==> s.locked && s.owner == s.cur;
  }

  // ---------------------------------------------------------------------------------------------
  // One call, one unit
  // ---------------------------------------------------------------------------------------------

  /** A call of P or V that has not yet taken or given its unit. */
  predicate Owes(pc: PC) {
    match pc.at
    case Out => false
    case UEntry => false
    case Unlock => false
    case UWake => false
    case UDone => false
    case Leave => false
    case Second => pc.op == P
    case _ => true
  }

  /** 1 while a call of this operation owes its unit. */
  function Debt(pc: PC, op: Op): nat {
    if pc.op == op && Owes(pc) then 1 else 0
  }

  /** How many of the threads are in such a call. */
  function Owing(pcs: seq<PC>, op: Op): nat {
    if pcs == [] then 0
    else
      var last := pcs[|pcs| - 1];
      Owing(pcs[..|pcs| - 1], op) + Debt(last, op)
  }

  /** The calls of P or of V in a run. */
  function Calls(es: seq<Event>, op: Op): nat {
    if es == [] then 0 else Calls(es[1..], op) + if es[0] == Call(op) then 1 else 0
  }

  lemma {:induction false} OwingUpdate(pcs: seq<PC>, t: nat, pc: PC, op: Op)
    requires t < |pcs|
    ensures Owing(pcs[t := pc], op) + Debt(pcs[t], op) == Owing(pcs, op) + Debt(pc, op)
    decreases |pcs|
  {
    var n := |pcs| - 1;
    if t == n {
      assert pcs[t := pc][..n] == pcs[..n];
    } else {
      assert pcs[t := pc][..n] == pcs[..n][t := pc];
      OwingUpdate(pcs[..n], t, pc, op);
    }
  }

  lemma {:induction false} NoneOwing(pcs: seq<PC>, op: Op)
    requires forall t :: 0 <= t < |pcs| ==> pcs[t].at == Out
    ensures Owing(pcs, op) == 0
    decreases |pcs|
  {
    if pcs != [] { NoneOwing(pcs[..|pcs| - 1], op); }
  }

  /** A statement pays exactly what its call then no longer owes. */
  lemma RunPays(s: State, next: nat)
    requires Enabled(s, Run(next))
    ensures var r, was := Step(s, Run(next)), s.pc[s.cur];
            && |r.pc| == |s.pc| && r.pc == s.pc[s.cur := r.pc[s.cur]]
            && r.ups + Debt(r.pc[s.cur], V) == s.ups + Debt(was, V)
            && r.downs + Debt(r.pc[s.cur], P) == s.downs + Debt(was, P)
  {
    EffectCounts(s, next);
    GotoOwes(s);
    hide Effect, Goto, Owes;
  }

  lemma EffectCounts(s: State, next: nat)
    ensures var r := Effect(s, next);
            && r.pc == s.pc && r.start == s.start
            && r.ups == s.ups + (if At(s, s.cur) == Body && OpOf(s, s.cur) == V then 1 else 0)
            && r.downs == s.downs + (if At(s, s.cur) == Second && OpOf(s, s.cur) == P then 1 else 0)
  {
    hide WithoutBest, WakeOne, Switch;
    WakeCounts(s);
    SwitchCounts(s.(mutexQ := s.mutexQ + [s.cur]), next);
    SwitchCounts(s.(condQ := s.condQ + [s.cur]), next);
  }

  lemma WakeCounts(s: State)
    ensures WakeOne(s) == s.(mutexQ := WakeOne(s).mutexQ)
  {
  }

  lemma SwitchCounts(s: State, next: nat)
    ensures Switch(s, next) == s.(cur := next, irq := Switch(s, next).irq)
  {
  }

  lemma GotoOwes(s: State)
    requires s.cur < |s.pc| && At(s, s.cur) != Out
    ensures var was, now := s.pc[s.cur], s.pc[s.cur].(at := Goto(s));
            && (Owes(now) <==> Owes(was) && !(was.at == Body && was.op == V) && !(was.at == Second && was.op == P))
            && (was.at == Body && was.op == V ==> Owes(was)) && (was.at == Second && was.op == P ==> Owes(was))
  {
  }

  lemma StepUnits(s: State, e: Event)
    requires Enabled(s, e)
    ensures var r := Step(s, e);
            && r.ups + Owing(r.pc, V) == s.ups + Owing(s.pc, V) + (if e == Call(V) then 1 else 0)
            && r.downs + Owing(r.pc, P) == s.downs + Owing(s.pc, P) + (if e == Call(P) then 1 else 0)
  {
    var r := Step(s, e);
    match e
    case Run(next) =>
      RunPays(s, next);
      OwingUpdate(s.pc, s.cur, r.pc[s.cur], V);
      OwingUpdate(s.pc, s.cur, r.pc[s.cur], P);
      hide Owing, Step, Enabled, Owes;
    case Call(op) =>
      OwingUpdate(s.pc, s.cur, PC(op, Entry), V);
      OwingUpdate(s.pc, s.cur, PC(op, Entry), P);
      hide Owing;
    case _ =>
  }

  lemma {:induction false} RunUnits(s: State, es: seq<Event>, r: State)
    requires Reaches(s, es, r)
    ensures r.ups + Owing(r.pc, V) == s.ups + Owing(s.pc, V) + Calls(es, V)
    ensures r.downs + Owing(r.pc, P) == s.downs + Owing(s.pc, P) + Calls(es, P)
    decreases es
  {
    hide Step, Enabled, Owing;
    if es != [] {
      StepUnits(s, es[0]);
      RunUnits(Step(s, es[0]), es[1..], r);
    }
  }

  /** Every call of V gives one unit and every call of P takes one, once: at any time the increments are the calls of V
      but those still on the way to theirs, and the decrements the calls of P but those still on the way. When all calls
      have returned, these are all calls, and the count is what it was, one more for each V and one less for each P. */
  lemma OneUnitEach(s: State, es: seq<Event>, r: State)
    requires Initial(s) && Reaches(s, es, r)
    ensures r.ups == Calls(es, V) - Owing(r.pc, V) && r.downs == Calls(es, P) - Owing(r.pc, P)
    ensures (forall t :: 0 <= t < |r.pc| ==> r.pc[t].at == Out) ==>
              r.ups == Calls(es, V) && r.downs == Calls(es, P)
              && r.count == (s.count + Calls(es, V) - Calls(es, P)) % WORD
  {
    hide Inv, Owing, Calls, Reaches;
    forall t | 0 <= t < |s.pc| ensures s.pc[t].at == Out { assert At(s, t).Out?; }
    NoneOwing(s.pc, V);
    NoneOwing(s.pc, P);
    RunUnits(s, es, r);
    if forall t :: 0 <= t < |r.pc| ==> r.pc[t].at == Out {
      NoneOwing(r.pc, V);
      NoneOwing(r.pc, P);
    }
    InitialInv(s);
    RunKeepsInv(s, es, r);
    SameStart(s, es, r);
    CountIs(r);
  }

  lemma CountIs(s: State)
    requires Inv(s)
    ensures s.count == (s.start + s.ups - s.downs) % WORD
  {
  }

  lemma {:induction false} SameStart(s: State, es: seq<Event>, r: State)
    requires Reaches(s, es, r)
    ensures r.start == s.start
    decreases es
  {
    hide Effect, Goto;
    if es != [] {
      if es[0].Run? { EffectCounts(s, es[0].next); }
      SameStart(Step(s, es[0]), es[1..], r);
    }
  }

  /** Only the stretches with interrupts or preemption off are atomic: between any two other statements, in particular
      between P's test of the count and its decrement, and anywhere outside, another thread can get the CPU. */
  lemma PreemptedAnywhere(s: State, next: nat)
    requires Inv(s) && CanSwitchTo(s, next)
    ensures At(s, s.cur) in {Entry, Body, Second, CEntry, UEntry, Leave} ==> Enabled(s, Preempt(next))
    ensures At(s, s.cur) == Out ==> Enabled(s, Yield(next)) && Enabled(s, Call(P)) && Enabled(s, Call(V))
  {
  }

  // ---------------------------------------------------------------------------------------------
  // First come, first served
  // ---------------------------------------------------------------------------------------------

  /** While x waits for the mutex, no thread of at most its priority that waits behind it, or comes later, is woken
      before it or gets ahead of it. */
  lemma StepQueueOrder(s: State, e: Event, x: nat, y: nat)
    requires Queues(s) && Enabled(s, e) && x in s.mutexQ && x in Step(s, e).mutexQ && x != y
    requires Priority(s.prio, x) >= Priority(s.prio, y)
    requires y in s.mutexQ ==> Before(s.mutexQ, x, y)
    ensures Step(s, e).prio == s.prio
    ensures y in s.mutexQ ==> y in Step(s, e).mutexQ
    ensures y in Step(s, e).mutexQ ==> Before(Step(s, e).mutexQ, x, y)
  {
    var q, r := s.mutexQ, Step(s, e).mutexQ;
    assert s.cur !in q;
    EffectQueue(s, e);
    if r == q + [s.cur] {
      AppendOrder(q, s.cur, x, y);
    } else if r != q {
      var i := BestOf(s.prio, q, |q|);
      BestIsBest(s.prio, q, |q|);
      WithoutFacts(q, i);
      WithoutOrder(q, i, x, y);
      if y in q {
        var j, k :| 0 <= j < k < |q| && q[j] == x && q[k] == y;
        assert k != i;
      }
    }
  }

  /** What a step can do to the mutex queue. */
  lemma EffectQueue(s: State, e: Event)
    requires Enabled(s, e)
    ensures var q, r := s.mutexQ, Step(s, e).mutexQ;
            r == q || r == q + [s.cur] || (q != [] && r == Without(q, BestOf(s.prio, q, |q|)))
    ensures Step(s, e).prio == s.prio
  {
    hide Goto, BestOf, Without, Switch;
    if e.Preempt? || e.Yield? { SwitchCounts(s, e.next); }
    if e.Run? {
      SwitchCounts(s.(mutexQ := s.mutexQ + [s.cur]), e.next);
      SwitchCounts(s.(condQ := s.condQ + [s.cur]), e.next);
    }
  }

  ghost predicate WaitsThroughout(s: State, es: seq<Event>, x: nat)
    decreases |es|
  {
    x in s.mutexQ && (es != [] && Enabled(s, es[0]) ==> WaitsThroughout(Step(s, es[0]), es[1..], x))
  }

  /** So it is over runs. */
  lemma {:induction false} FirstComeFirstServed(s: State, es: seq<Event>, r: State, x: nat, y: nat)
    requires Inv(s) && Reaches(s, es, r) && WaitsThroughout(s, es, x) && x != y
    requires Priority(s.prio, x) >= Priority(s.prio, y) && (y in s.mutexQ ==> Before(s.mutexQ, x, y))
    ensures y in s.mutexQ ==> y in r.mutexQ
    ensures y in r.mutexQ ==> Before(r.mutexQ, x, y)
    decreases |es|
  {
    hide Step, Enabled, Flags, Queues, Exclusive, Counts, MutexWakes, CondWakes, Before;
    if es != [] {
      StepKeepsInv(s, es[0]);
      StepQueueOrder(s, es[0], x, y);
      FirstComeFirstServed(Step(s, es[0]), es[1..], r, x, y);
    }
  }

  /** No thread can do anything more: each is elsewhere or asleep in one of the queues. */
  ghost predicate Stuck(s: State) {
    forall t {:trigger At(s, t)} :: At(s, t).Out? || Waiting(s, t)
  }

  /** No lost wakeup: in such a state the mutex is free and no one waits for it, and whoever is asleep is in P,
      on a count of zero. */
  lemma StuckMeansZero(s: State, es: seq<Event>, r: State)
    requires Initial(s) && Reaches(s, es, r) && Stuck(r)
    ensures !r.locked && r.mutexQ == []
    ensures forall t {:trigger At(r, t)} :: !At(r, t).Out? ==> t in r.condQ && OpOf(r, t) == P && r.count == 0
  {
    InitialInv(s);
    RunKeepsInv(s, es, r);
    assert r.locked ==> Holding(At(r, r.owner)) && (At(r, r.owner).Out? || Waiting(r, r.owner));
    forall t ensures !Contender(r, t) { assert At(r, t).Out? || Waiting(r, t); }
  }

  /** A thread inside P or V is never prevented from going on, so long as some thread stays elsewhere (Idle
      does). */
  lemma CanGoOn(s: State, idle: nat)
    requires Inv(s) && !At(s, s.cur).Out? && idle < |s.pc| && At(s, idle).Out?
    ensures Enabled(s, Run(idle))
  {
    assert idle in s.mutexQ ==> At(s, idle).MAwake?;
    assert idle in s.condQ ==> At(s, idle).CAwake?;
  }
}
