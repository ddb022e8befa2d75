/** The hand-off of block requests between threads and a device driver (src/geekos/blockdev.c, and the request
    thread of src/geekos/ide.c). Each step is one region in which interrupts stay off, or one between them. */
module Blockdev {

  type Address = nat

  datatype Status = Pending | Completed | Error

  /** A request in memory. owner is the thread that made it; serial, which only the proofs need, tells which
      post it was. */
  datatype Request = Request(state: Status, errorCode: int, owner: nat, serial: nat)

  /** A thread in Do_Request: it has no request, has created one, has posted it and is about to look at its state,
      waits on its queue, or is past the wait. */
  datatype Poster = Idle | Created(r: Address) | Posted(r: Address) | Blocked(r: Address) | Through(r: Address)

  /** The driver: about to look at the queue, waiting for a request, transferring, or about to report. */
  datatype Driver = Looking | Asleep | Working(r: Address) | Finished(r: Address, rc: int)

  /** posted and taken count the posts and dequeues so far, done lists the codes the driver reported, in order, and
      results the code each post returned with. */
  datatype State = State(mem: map<Address, Request>, queue: seq<Address>, posters: seq<Poster>, driver: Driver,
                         posted: nat, taken: nat, done: seq<int>, results: map<nat, int>)

  datatype Op = Create(t: nat, r: Address, junk: int) | Post(t: nat) | Check(t: nat) | Return(t: nat)
              | Look | Transfer(rc: int) | Notify

  predicate Init(s: State) {
    && s.mem == map[] && s.queue == [] && s.driver.Looking? && s.posted == 0 && s.taken == 0 && s.done == []
    && s.results == map[] && forall t :: 0 <= t < |s.posters| ==> s.posters[t].Idle?
  }

  predicate Enabled(s: State, op: Op) {
    match op
    case Create(t, r, _) => t < |s.posters| && s.posters[t].Idle? && r !in s.mem
    case Post(t) => t < |s.posters| && s.posters[t].Created?
    case Check(t) => t < |s.posters| && s.posters[t].Posted?
    case Return(t) => t < |s.posters| && s.posters[t].Through?
    case Look => s.driver.Looking?
    case Transfer(_) => s.driver.Working?
    case Notify => s.driver.Finished?
  }

  /** The request a step reads or writes, if any. */
  function Touched(s: State, op: Op): set<Address>
    requires Enabled(s, op)
  {
    match op
    case Create(_, _, _) => {}
    case Look => if s.queue == [] then {} else {s.queue[0]}
    case Transfer(_) => {s.driver.r}
    case Notify => {s.driver.r}
    case _ => {s.posters[op.t].r}
  }

  function Woken(p: Poster, r: Address): Poster {
    if p == Blocked(r) then Posted(r) else p
  }

  /** Wake_Up on the request's queue. */
  function WakeAll(posters: seq<Poster>, r: Address): (ps: seq<Poster>)
    ensures |ps| == |posters| && forall t :: 0 <= t < |posters| ==> ps[t] == Woken(posters[t], r)
  {
    seq(|posters|, t requires 0 <= t < |posters| => Woken(posters[t], r))
  }

  function Apply(s: State, op: Op): State
    requires Enabled(s, op) && Touched(s, op) <= s.mem.Keys
  {
    match op
    case Create(t, r, junk) =>
      s.(mem := s.mem[r := Request(Pending, junk, t, 0)], posters := s.posters[t := Created(r)])
    case Post(t) =>
      var r := s.posters[t].r;
      s.(mem := s.mem[r := s.mem[r].(serial := s.posted)], posted := s.posted + 1, queue := s.queue + [r],
         driver := if s.driver.Asleep? then Looking else s.driver, posters := s.posters[t := Posted(r)])
    case Check(t) =>
      var r := s.posters[t].r;
      s.(posters := s.posters[t := if s.mem[r].state.Pending? then Blocked(r) else Through(r)])
    case Return(t) =>
      var r := s.posters[t].r;
      s.(results := s.results[s.mem[r].serial := s.mem[r].errorCode], mem := s.mem - {r},
          posters := s.posters[t := Idle])
    case Look =>
      if s.queue == [] then s.(driver := Asleep)
      else s.(driver := Working(s.queue[0]), queue := s.queue[1..], taken := s.taken + 1)
    case Transfer(rc) => s.(driver := Finished(s.driver.r, rc))
    case Notify =>
      var r, rc := s.driver.r, s.driver.rc;
      s.(mem := s.mem[r := s.mem[r].(state := if rc == 0 then Completed else Error, errorCode := rc)],
         done := s.done + [rc], posters := WakeAll(s.posters, r), driver := Looking)
  }

  // ---------------------------------------------------------------------------------------------
  // The invariant
  // ---------------------------------------------------------------------------------------------

  predicate Busy(d: Driver) {
    d.Working? || d.Finished?
  }

  predicate DriverHas(s: State, r: Address) {
    Busy(s.driver) && s.driver.r == r
  }

  /** A posted request is in the queue, at the place its serial tells, or with the driver. */
  predicate InHand(s: State, r: Address, serial: nat) {
    if serial < s.taken then DriverHas(s, r)
    else serial - s.taken < |s.queue| && s.queue[serial - s.taken] == r
  }

  /** A request that is waiting to be served: its owner has posted it and cannot be past the wait. */
  predicate Served(s: State, r: Address, serial: nat) {
    && r in s.mem && s.mem[r].state.Pending? && s.mem[r].serial == serial
    && s.mem[r].owner < |s.posters|
    && (s.posters[s.mem[r].owner] == Posted(r) || s.posters[s.mem[r].owner] == Blocked(r))
  }

  predicate PosterOk(s: State, t: nat)
    requires t < |s.posters|
  {
    var p := s.posters[t];
    p.Idle? || (
      && p.r in s.mem && s.mem[p.r].owner == t
      && (p.Created? ==> s.mem[p.r].state.Pending?)
      && (p.Posted? && s.mem[p.r].state.Pending? ==> InHand(s, p.r, s.mem[p.r].serial))
      && (p.Blocked? ==> s.mem[p.r].state.Pending? && InHand(s, p.r, s.mem[p.r].serial))
      && (p.Through? ==> !s.mem[p.r].state.Pending?))
  }

  predicate Live(s: State, r: Address) {
    r in s.mem && s.mem[r].owner < |s.posters| && s.posters[s.mem[r].owner] != Created(r)
  }

  predicate RequestOk(s: State, r: Address)
    requires r in s.mem
  {
    var q := s.mem[r];
    && q.owner < |s.posters| && !s.posters[q.owner].Idle? && s.posters[q.owner].r == r
    && (Live(s, r) ==> q.serial < s.posted && q.serial !in s.results)
    && (!q.state.Pending? ==> Live(s, r) && q.serial < |s.done| && q.errorCode == s.done[q.serial])
    && (!q.state.Pending? ==> (q.state.Completed? <==> q.errorCode == 0))
  }

  predicate Posters(s: State) {
    forall t :: 0 <= t < |s.posters| ==> PosterOk(s, t)
  }

  predicate Requests(s: State) {
    forall r :: r in s.mem ==> RequestOk(s, r)
  }

  predicate SerialsDiffer(s: State) {
    forall q, r :: q in s.mem && r in s.mem && q != r && Live(s, q) && Live(s, r) ==> s.mem[q].serial != s.mem[r].serial
  }

  predicate QueueOk(s: State) {
    && s.posted == s.taken + |s.queue|
    && forall i :: 0 <= i < |s.queue| ==> Served(s, s.queue[i], s.taken + i)
  }

  predicate DriverOk(s: State) {
    && (s.driver.Asleep? ==> s.queue == [])
    && (Busy(s.driver) ==> Served(s, s.driver.r, |s.done|))
    && s.taken == |s.done| + if Busy(s.driver) then 1 else 0
  }

  predicate ResultsOk(s: State) {
    forall k :: k in s.results ==> k < |s.done| && s.results[k] == s.done[k]
  }

  predicate Inv(s: State) {
    Posters(s) && Requests(s) && SerialsDiffer(s) && QueueOk(s) && DriverOk(s) && ResultsOk(s)
  }

  /** No step touches a request that was freed. */
  lemma TouchesLive(s: State, op: Op)
    requires Inv(s) && Enabled(s, op)
    ensures Touched(s, op) <= s.mem.Keys
  {
    match op
    case Post(t) => assert PosterOk(s, t);
    case Check(t) => assert PosterOk(s, t);
    case Return(t) => assert PosterOk(s, t);
    case Look => assert s.queue != [] ==> Served(s, s.queue[0], s.taken + 0);
    case _ =>
  }

  // --- the parts of the invariant, step by step

  lemma CreateKeeps(s: State, op: Op)
    requires Inv(s) && Enabled(s, op) && op.Create?
    ensures Inv(Apply(s, op))
  {
    var t := Apply(s, op);
    hide SerialsDiffer, QueueOk, DriverOk, ResultsOk;
    forall i | 0 <= i < |t.posters| ensures PosterOk(t, i) {
      assert PosterOk(s, i);
    }
    forall q | q in t.mem ensures RequestOk(t, q) && (q in s.mem ==> Live(t, q) == Live(s, q)) {
      assert q in s.mem ==> RequestOk(s, q);
    }
    CreateRest(s, op);
  }

  lemma CreateRest(s: State, op: Op)
    requires Inv(s) && Enabled(s, op) && op.Create?
    requires forall q :: q in s.mem ==> Live(Apply(s, op), q) == Live(s, q)
    ensures SerialsDiffer(Apply(s, op)) && QueueOk(Apply(s, op)) && DriverOk(Apply(s, op)) && ResultsOk(Apply(s, op))
  {
    hide Posters, Requests, InHand;
    var t := Apply(s, op);
    forall q, k | Served(s, q, k) ensures Served(t, q, k) { }
  }

  lemma PostServed(s: State, op: Op, q: Address, k: nat)
    requires Posters(s) && Enabled(s, op) && op.Post? && Touched(s, op) <= s.mem.Keys && Served(s, q, k)
    ensures Served(Apply(s, op), q, k)
  {
    assert PosterOk(s, op.t);
  }

  lemma PostKeeps(s: State, op: Op)
    requires Inv(s) && Enabled(s, op) && op.Post? && Touched(s, op) <= s.mem.Keys
    ensures Inv(Apply(s, op))
  {
    var t := Apply(s, op);
    var r := s.posters[op.t].r;
    assert PosterOk(s, op.t);
    hide SerialsDiffer, Served, ResultsOk;
    forall i | 0 <= i < |t.posters| ensures PosterOk(t, i) {
      assert PosterOk(s, i);
    }
    forall q | q in t.mem ensures RequestOk(t, q) && (q != r ==> Live(t, q) == Live(s, q)) {
      assert RequestOk(s, q);
    }
    PostRest(s, op);
  }

  lemma PostRest(s: State, op: Op)
    requires Inv(s) && Enabled(s, op) && op.Post? && Touched(s, op) <= s.mem.Keys
    ensures SerialsDiffer(Apply(s, op)) && QueueOk(Apply(s, op)) && DriverOk(Apply(s, op)) && ResultsOk(Apply(s, op))
  {
    var t := Apply(s, op);
    var r := s.posters[op.t].r;
    assert PosterOk(s, op.t);
    PostSerials(s, op);
    hide Requests, InHand, SerialsDiffer, Posters;
    assert Served(t, r, s.posted);
    hide Served;
    forall i | 0 <= i < |t.queue| ensures Served(t, t.queue[i], t.taken + i) {
      if i < |s.queue| { PostServed(s, op, s.queue[i], s.taken + i); }
    }
    if Busy(s.driver) { PostServed(s, op, s.driver.r, |s.done|); }
  }

  lemma PostSerials(s: State, op: Op)
    requires Inv(s) && Enabled(s, op) && op.Post? && Touched(s, op) <= s.mem.Keys
    ensures SerialsDiffer(Apply(s, op))
  {
    hide InHand, QueueOk, DriverOk, ResultsOk;
    var t := Apply(s, op);
    var r := s.posters[op.t].r;
    assert PosterOk(s, op.t);
    forall q | q in t.mem && q != r && Live(t, q) ensures Live(s, q) && s.mem[q].serial < s.posted {
      assert RequestOk(s, q);
    }
  }

  lemma CheckServed(s: State, op: Op, q: Address, k: nat)
    requires Enabled(s, op) && op.Check? && Touched(s, op) <= s.mem.Keys && Served(s, q, k)
    ensures Served(Apply(s, op), q, k)
  {
  }

  lemma CheckKeeps(s: State, op: Op)
    requires Inv(s) && Enabled(s, op) && op.Check? && Touched(s, op) <= s.mem.Keys
    ensures Inv(Apply(s, op))
  {
    var t := Apply(s, op);
    assert PosterOk(s, op.t);
    hide ResultsOk;
    forall i | 0 <= i < |t.posters| ensures PosterOk(t, i) {
      assert PosterOk(s, i);
    }
    forall q | q in t.mem ensures RequestOk(t, q) && Live(t, q) == Live(s, q) {
      assert RequestOk(s, q);
    }
    hide Posters, Requests, InHand, Served, Live;
    forall i | 0 <= i < |t.queue| ensures Served(t, t.queue[i], t.taken + i) {
      CheckServed(s, op, s.queue[i], s.taken + i);
    }
    if Busy(s.driver) { CheckServed(s, op, s.driver.r, |s.done|); }
    SameResults(s, t);
  }

  lemma SameResults(s: State, t: State)
    requires ResultsOk(s) && t.done == s.done && t.results == s.results
    ensures ResultsOk(t)
  {
  }

  lemma ReturnServed(s: State, op: Op, q: Address, k: nat)
    requires Inv(s) && Enabled(s, op) && op.Return? && Touched(s, op) <= s.mem.Keys && Served(s, q, k)
    ensures Served(Apply(s, op), q, k)
  {
    assert PosterOk(s, op.t);
  }

  lemma ReturnPosters(s: State, op: Op)
    requires Inv(s) && Enabled(s, op) && op.Return? && Touched(s, op) <= s.mem.Keys
    ensures Posters(Apply(s, op))
  {
    hide Requests, SerialsDiffer, QueueOk, DriverOk, ResultsOk;
    var t := Apply(s, op);
    assert PosterOk(s, op.t);
    forall i | 0 <= i < |t.posters| ensures PosterOk(t, i) {
      assert PosterOk(s, i);
    }
  }

  lemma ReturnRequests(s: State, op: Op)
    requires Inv(s) && Enabled(s, op) && op.Return? && Touched(s, op) <= s.mem.Keys
    ensures Requests(Apply(s, op)) && SerialsDiffer(Apply(s, op)) && ResultsOk(Apply(s, op))
  {
    hide QueueOk, DriverOk, InHand;
    var t := Apply(s, op);
    var r := s.posters[op.t].r;
    assert PosterOk(s, op.t) && RequestOk(s, r) && Live(s, r);
    forall q | q in t.mem ensures RequestOk(t, q) && Live(t, q) == Live(s, q) {
      assert RequestOk(s, q);
    }
  }

  lemma ReturnKeeps(s: State, op: Op)
    requires Inv(s) && Enabled(s, op) && op.Return? && Touched(s, op) <= s.mem.Keys
    ensures Inv(Apply(s, op))
  {
    ReturnPosters(s, op);
    ReturnRequests(s, op);
    hide Posters, Requests, SerialsDiffer, ResultsOk, Served;
    var t := Apply(s, op);
    forall i | 0 <= i < |t.queue| ensures Served(t, t.queue[i], t.taken + i) {
      ReturnServed(s, op, s.queue[i], s.taken + i);
    }
    if Busy(s.driver) { ReturnServed(s, op, s.driver.r, |s.done|); }
  }

  lemma LookKeeps(s: State, op: Op)
    requires Inv(s) && Enabled(s, op) && op.Look? && Touched(s, op) <= s.mem.Keys
    ensures Inv(Apply(s, op))
  {
    var t := Apply(s, op);
    hide SerialsDiffer, ResultsOk;
    forall i | 0 <= i < |t.posters| ensures PosterOk(t, i) {
      assert PosterOk(s, i);
    }
    forall q | q in t.mem ensures RequestOk(t, q) && Live(t, q) == Live(s, q) {
      assert RequestOk(s, q);
    }
    hide Posters, Requests, InHand, Live;
    assert s.queue != [] ==> Served(s, s.queue[0], s.taken + 0);
    forall i | 0 <= i < |t.queue| ensures Served(t, t.queue[i], t.taken + i) {
      if s.queue != [] { assert Served(s, s.queue[i + 1], s.taken + (i + 1)); }
    }
    SameResults(s, t);
    SameSerials(s, t);
  }

  lemma SameSerials(s: State, t: State)
    requires SerialsDiffer(s) && t.mem == s.mem && t.posters == s.posters
    ensures SerialsDiffer(t)
  {
  }

  lemma TransferKeeps(s: State, op: Op)
    requires Inv(s) && Enabled(s, op) && op.Transfer? && Touched(s, op) <= s.mem.Keys
    ensures Inv(Apply(s, op))
  {
    var t := Apply(s, op);
    forall i | 0 <= i < |t.posters| ensures PosterOk(t, i) {
      assert PosterOk(s, i);
    }
  }

  lemma NotifyServed(s: State, op: Op, q: Address, k: nat)
    requires Enabled(s, op) && op.Notify? && Touched(s, op) <= s.mem.Keys
    requires Served(s, q, k) && q != s.driver.r
    ensures Served(Apply(s, op), q, k)
  {
  }

  lemma NotifyPosters(s: State, op: Op)
    requires Inv(s) && Enabled(s, op) && op.Notify? && Touched(s, op) <= s.mem.Keys
    ensures Posters(Apply(s, op))
  {
    hide Requests, SerialsDiffer, QueueOk, ResultsOk;
    var t := Apply(s, op);
    forall i | 0 <= i < |t.posters| ensures PosterOk(t, i) {
      assert PosterOk(s, i);
      assert t.posters[i] == Woken(s.posters[i], s.driver.r);
    }
  }

  lemma NotifyRequests(s: State, op: Op)
    requires Inv(s) && Enabled(s, op) && op.Notify? && Touched(s, op) <= s.mem.Keys
    ensures Requests(Apply(s, op)) && SerialsDiffer(Apply(s, op))
  {
    hide Posters, QueueOk, ResultsOk;
    var t := Apply(s, op);
    forall r | r in t.mem ensures RequestOk(t, r) && Live(t, r) == Live(s, r) {
      assert RequestOk(s, r);
      assert t.posters[t.mem[r].owner] == Woken(s.posters[s.mem[r].owner], s.driver.r);
    }
  }

  lemma NotifyKeeps(s: State, op: Op)
    requires Inv(s) && Enabled(s, op) && op.Notify? && Touched(s, op) <= s.mem.Keys
    ensures Inv(Apply(s, op))
  {
    NotifyPosters(s, op);
    NotifyRequests(s, op);
    var t := Apply(s, op);
    hide Posters, Requests, SerialsDiffer, Served, WakeAll;
    forall i | 0 <= i < |t.queue| ensures Served(t, t.queue[i], t.taken + i) {
      assert s.queue[i] != s.driver.r by { OneSerial(s, s.queue[i], s.taken + i, s.driver.r, |s.done|); }
      NotifyServed(s, op, s.queue[i], s.taken + i);
    }
  }

  lemma OneSerial(s: State, q: Address, k: nat, r: Address, m: nat)
    requires Served(s, q, k) && Served(s, r, m) && k != m
    ensures q != r
  {
  }

  lemma StepKeeps(s: State, op: Op)
    requires Inv(s) && Enabled(s, op)
    ensures Touched(s, op) <= s.mem.Keys && Inv(Apply(s, op))
  {
    TouchesLive(s, op);
    hide Inv, Apply;
    match op
    case Create(_, _, _) => CreateKeeps(s, op);
    case Post(_) => PostKeeps(s, op);
    case Check(_) => CheckKeeps(s, op);
    case Return(_) => ReturnKeeps(s, op);
    case Look => LookKeeps(s, op);
    case Transfer(_) => TransferKeeps(s, op);
    case Notify => NotifyKeeps(s, op);
  }

  // ---------------------------------------------------------------------------------------------
  // Runs
  // ---------------------------------------------------------------------------------------------

  /** A step that a thread or the driver takes, which fails if it touches freed memory. */
  predicate CanStep(s: State, op: Op) {
    Enabled(s, op) && Touched(s, op) <= s.mem.Keys
  }

  predicate Legal(s: State, ops: seq<Op>)
    decreases |ops|, 0
  {
    ops == [] || (Legal(s, ops[..|ops| - 1]) && CanStep(Run(s, ops[..|ops| - 1]), ops[|ops| - 1]))
  }

  function Run(s: State, ops: seq<Op>): State
    requires Legal(s, ops)
    decreases |ops|, 1
  {
    if ops == [] then s else Apply(Run(s, ops[..|ops| - 1]), ops[|ops| - 1])
  }

  lemma InitInv(s: State)
    requires Init(s)
    ensures Inv(s)
  {
  }

  /** In every run the invariant holds, and whatever can happen next touches no freed request. */
  lemma {:induction false} EveryRun(s: State, ops: seq<Op>)
    requires Init(s) && Legal(s, ops)
    ensures Inv(Run(s, ops)) && forall op :: Enabled(Run(s, ops), op) ==> CanStep(Run(s, ops), op)
    decreases |ops|
  {
    hide Inv, Init, Enabled, Touched, Apply;
    if ops == [] {
      InitInv(s);
    } else {
      EveryRun(s, ops[..|ops| - 1]);
      StepKeeps(Run(s, ops[..|ops| - 1]), ops[|ops| - 1]);
    }
    forall op | Enabled(Run(s, ops), op) ensures CanStep(Run(s, ops), op) {
      TouchesLive(Run(s, ops), op);
    }
  }

  // ---------------------------------------------------------------------------------------------
  // What the invariant means
  // ---------------------------------------------------------------------------------------------

  /** First come, first served, each exactly once: the driver's k-th dequeue is the k-th post. */
  lemma TakenInOrder(s: State)
    requires Inv(s) && Enabled(s, Look) && s.queue != []
    ensures var t := Apply(s, Look);
            t.driver == Working(s.queue[0]) && t.mem[t.driver.r].serial == s.taken && t.taken == s.taken + 1 <= t.posted
  {
    assert Served(s, s.queue[0], s.taken + 0);
  }

  /** A post returns once, after the driver reported on that very request, with the code it reported. */
  lemma ReturnsItsCode(s: State, t: nat)
    requires Inv(s) && Enabled(s, Return(t))
    ensures var r := s.posters[t].r; r in s.mem
    ensures var r := s.posters[t].r; var u := s.mem[r]; var v := Apply(s, Return(t));
            && u.owner == t && u.serial < |s.done| && u.serial !in s.results
            && v.results == s.results[u.serial := s.done[u.serial]] && r !in v.mem
            && u.errorCode == s.done[u.serial] && u.state == if u.errorCode == 0 then Completed else Error
  {
    assert PosterOk(s, t);
    assert RequestOk(s, s.posters[t].r);
  }

  /** No wakeup is lost: a thread that waits for a request waits for one that is in the queue or with the driver, and
      the driver sleeps only while the queue is empty. */
  lemma NoLostWakeup(s: State, t: nat)
    requires Inv(s) && t < |s.posters| && s.posters[t].Blocked?
    ensures var r := s.posters[t].r; (r in s.queue || DriverHas(s, r)) && s.mem[r].state.Pending? && !s.driver.Asleep?
  {
    assert PosterOk(s, t);
    assert RequestOk(s, s.posters[t].r);
  }

  /** How many steps the driver takes before it has reported post k: three for each request up to it. */
  function Ahead(s: State, k: nat): int
    requires Inv(s)
  {
    3 * (k + 1 - |s.done|) - (if s.driver.Working? then 1 else if s.driver.Finished? then 2 else 0)
  }

  /** Nobody waits forever: while post k is not reported the driver can step, every step it takes brings it one step
      nearer, and no thread's step puts it off. */
  lemma DriverGetsThere(s: State, k: nat, op: Op)
    requires Inv(s) && |s.done| <= k < s.posted && CanStep(s, op) && Inv(Apply(s, op))
    ensures Ahead(s, k) > 0 && !s.driver.Asleep?
    ensures (Enabled(s, Look) || (exists rc :: Enabled(s, Transfer(rc))) || Enabled(s, Notify))
    ensures Ahead(Apply(s, op), k) == Ahead(s, k) - if op.Look? || op.Transfer? || op.Notify? then 1 else 0
  {
    assert s.driver.Working? ==> Enabled(s, Transfer(0));
  }

  // ---------------------------------------------------------------------------------------------
  // What a state says of the run that led to it
  // ---------------------------------------------------------------------------------------------

  /** What the transfers of a run came to, in order. */
  function Codes(ops: seq<Op>): seq<int> {
    if ops == [] then []
    else
      var op := ops[|ops| - 1];
      Codes(ops[..|ops| - 1]) + if op.Transfer? then [op.rc] else []
  }

  /** Who made the posts of a run, in order. */
  function Posts(ops: seq<Op>): seq<nat> {
    if ops == [] then []
    else
      var op := ops[|ops| - 1];
      Posts(ops[..|ops| - 1]) + if op.Post? then [op.t] else []
  }

  /** Request r is the last that its owner posted. */
  ghost predicate LastPost(s: State, posts: seq<nat>, r: Address) {
    r in s.mem && Live(s, r) ==>
      var q := s.mem[r];
      q.serial < |posts| && posts[q.serial] == q.owner && forall j :: q.serial < j < |posts| ==> posts[j] != q.owner
  }

  ghost predicate DriverTells(s: State, codes: seq<int>) {
    && |codes| == |s.done| + (if s.driver.Finished? then 1 else 0) && s.done == codes[..|s.done|]
    && (s.driver.Finished? ==> s.driver.rc == codes[|s.done|])
  }

  ghost predicate Told(s: State, ops: seq<Op>) {
    && s.posted == |Posts(ops)| && DriverTells(s, Codes(ops))
    && forall r {:trigger LastPost(s, Posts(ops), r)} :: LastPost(s, Posts(ops), r)
  }

  lemma StepDriver(s: State, op: Op, codes: seq<int>)
    requires CanStep(s, op) && DriverTells(s, codes)
    ensures DriverTells(Apply(s, op), codes + if op.Transfer? then [op.rc] else [])
  {
  }

  lemma StepPost(s: State, op: Op, posts: seq<nat>, r: Address)
    requires Inv(s) && CanStep(s, op) && LastPost(s, posts, r) && s.posted == |posts|
    ensures Apply(s, op).posted == |posts| + (if op.Post? then 1 else 0)
    ensures LastPost(Apply(s, op), posts + if op.Post? then [op.t] else [], r)
  {
    hide SerialsDiffer, QueueOk, DriverOk, ResultsOk, InHand;
    if r in s.mem { assert RequestOk(s, r); }
    if op.Post? || op.Check? || op.Return? { assert PosterOk(s, op.t); }
    var t := Apply(s, op);
    if op.Notify? && r in s.mem { assert t.posters[s.mem[r].owner] == Woken(s.posters[s.mem[r].owner], s.driver.r); }
  }

  lemma {:induction false} RunTells(s: State, ops: seq<Op>)
    requires Init(s) && Legal(s, ops)
    ensures Told(Run(s, ops), ops)
    decreases |ops|
  {
    hide Inv, Init, Enabled, Touched, Apply, DriverTells, LastPost;
    if ops == [] {
      InitTold(s);
    } else {
      var before, op := ops[..|ops| - 1], ops[|ops| - 1];
      RunTells(s, before);
      EveryRun(s, before);
      var t := Run(s, before);
      StepDriver(t, op, Codes(before));
      assert LastPost(t, Posts(before), 0);
      StepPost(t, op, Posts(before), 0);
      forall r ensures LastPost(Apply(t, op), Posts(ops), r) {
        assert LastPost(t, Posts(before), r);
        StepPost(t, op, Posts(before), r);
      }
    }
  }

  lemma InitTold(s: State)
    requires Init(s)
    ensures Told(s, [])
  {
    assert Codes([]) == [] && Posts([]) == [];
  }

  /** Post k is the last that thread t made, and in v, which comes after u, it has returned with the code of
      transfer k. */
  ghost predicate ServedAs(ops: seq<Op>, u: State, v: State, t: nat, k: nat) {
    && k < |Posts(ops)| && Posts(ops)[k] == t && (forall j :: k < j < |Posts(ops)| ==> Posts(ops)[j] != t)
    && k < |Codes(ops)| && k !in u.results && v.results == u.results[k := Codes(ops)[k]]
  }

  /** Over runs: the k-th post is served by the k-th transfer, and who made it, once it returns, returns with what that
      transfer came to. */
  lemma CodeArrives(s: State, ops: seq<Op>, t: nat)
    requires Init(s) && Legal(s, ops) && Enabled(Run(s, ops), Return(t))
    ensures CanStep(Run(s, ops), Return(t))
    ensures exists k: nat :: ServedAs(ops, Run(s, ops), Apply(Run(s, ops), Return(t)), t, k)
  {
    EveryRun(s, ops);
    RunTells(s, ops);
    var u := Run(s, ops);
    ReturnsItsCode(u, t);
    var r := u.posters[t].r;
    ThroughLive(u, t);
    hide Inv, Legal, Run, Init;
    assert LastPost(u, Posts(ops), r);
    var k := u.mem[r].serial;
    assert Posts(ops)[k] == t;
    assert ServedAs(ops, u, Apply(u, Return(t)), t, k);
  }

  lemma ThroughLive(s: State, t: nat)
    requires Inv(s) && Enabled(s, Return(t))
    ensures s.posters[t].r in s.mem && Live(s, s.posters[t].r) && s.mem[s.posters[t].r].owner == t
  {
    assert PosterOk(s, t);
    assert RequestOk(s, s.posters[t].r);
  }
}
