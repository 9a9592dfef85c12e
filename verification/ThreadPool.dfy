/** The batching job queue (corecode/util/ThreadPool1.c) and the hashed pool over several of
    them (corecode/util/ThreadPool2.c).  One locked section, or one job call, is one step. */
module ThreadPool {
  import opened Bytes

  /** One accepted insertion: the same job may be inserted again later under another ticket. */
  datatype Ticket = Ticket(id: nat, hash: nat, hashed: bool)

  datatype Worker = Idle | Waiting | Batch | Exited

  /** A pool with one thread.  The last three fields record its history. */
  datatype Pool = Pool(
    stopped: bool, work: seq<Ticket>, running: seq<Ticket>, current: Option<Ticket>, worker: Worker,
    accepted: seq<Ticket>, tailOnly: bool, done: seq<Ticket>)

  const NewPool := Pool(false, [], [], None, Idle, [], true, [])

  datatype Step =
    | InsertTail(t: Ticket)
    | InsertHead(t: Ticket)
    | Stop
    | Wait
    | Take
    | Leave
    | Start
    | Finish
    | EndBatch

  predicate Enabled(p: Pool, step: Step) {
    match step
    case InsertTail(_) | InsertHead(_) => true
    case Stop => true
    case Wait => p.worker == Idle && p.work == [] && !p.stopped
    // once woken, for whatever reason, the worker takes what is there without looking again
    case Take => p.worker == Waiting || (p.worker == Idle && p.work != [])
    case Leave => p.worker == Idle && p.work == [] && p.stopped
    case Start => p.worker == Batch && p.current.None? && p.running != []
    case Finish => p.worker == Batch && p.current.Some?
    case EndBatch => p.worker == Batch && p.current.None? && p.running == []
  }

  function Apply(p: Pool, step: Step): Pool
    requires Enabled(p, step)
  {
    match step
    case InsertTail(t) =>
      if p.stopped then p else p.(work := p.work + [t], accepted := p.accepted + [t])
    case InsertHead(t) =>
      if p.stopped then p else p.(work := [t] + p.work, accepted := p.accepted + [t], tailOnly := false)
    case Stop => p.(stopped := true)
    case Wait => p.(worker := Waiting)
    case Take => p.(running := p.running + p.work, work := [], worker := Batch)
    case Leave => p.(worker := Exited)
    case Start => p.(current := Some(p.running[0]), running := p.running[1..])
    case Finish => p.(current := None, done := p.done + [p.current.value])
    case EndBatch => p.(worker := Idle)
  }

  /** The pool a whole run of steps leads to, if each of them was possible. */
  predicate Runs(p: Pool, steps: seq<Step>, q: Pool)
    decreases |steps|
  {
    if steps == [] then p == q
    else Enabled(p, steps[0]) && Runs(Apply(p, steps[0]), steps[1..], q)
  }

  function Now(current: Option<Ticket>): seq<Ticket> {
    if current.Some? then [current.value] else []
  }

  /** Every ticket the pool still holds or has run, in the order the jobs run. */
  function Line(p: Pool): seq<Ticket> {
    p.done + Now(p.current) + p.running + p.work
  }

  predicate Invariant(p: Pool) {
    && multiset(Line(p)) == multiset(p.accepted)
    && (p.tailOnly ==> Line(p) == p.accepted)
    && (p.worker != Batch ==> p.running == [] && p.current.None?)
    && (p.worker == Exited ==> p.stopped && p.work == [])
  }

  /** What one step does to the line of its pool. */
  lemma LineAfter(p: Pool, step: Step)
    requires Enabled(p, step) && !step.InsertHead?
    ensures Line(Apply(p, step)) == if step.InsertTail? && !p.stopped then Line(p) + [step.t] else Line(p)
  {
    var q := Apply(p, step);
    match step {
      case InsertTail(t) => Behind(p.done + Now(p.current) + p.running, p.work, [t]);
      case Take => Behind(p.done + Now(p.current), p.running, p.work);
      case Start => FirstStarts(p.done, p.running, p.work);
      case Finish =>
      case _ =>
    }
  }

  lemma Behind(a: seq<Ticket>, b: seq<Ticket>, c: seq<Ticket>)
    ensures a + (b + c) == a + b + c && a + (b + c) + [] == a + b + c
  {
  }

  lemma FirstStarts(done: seq<Ticket>, running: seq<Ticket>, work: seq<Ticket>)
    requires running != []
    ensures done + [running[0]] + running[1..] + work == done + [] + running + work
  {
    assert running == [running[0]] + running[1..];
    assert done + [running[0]] + running[1..] == done + [] + running;
  }

  lemma InsertedAnywhere(a: seq<Ticket>, t: Ticket, b: seq<Ticket>)
    ensures multiset(a + ([t] + b)) == multiset(a + b) + multiset{t}
  {
  }

  lemma InvariantKept(p: Pool, step: Step)
    requires Invariant(p) && Enabled(p, step)
    ensures Invariant(Apply(p, step))
    ensures p.stopped ==> Apply(p, step).accepted == p.accepted && Apply(p, step).stopped
  {
    if step.InsertHead? {
      InsertedAnywhere(p.done + Now(p.current) + p.running, step.t, p.work);
      hide Now;
    } else {
      LineAfter(p, step);
      hide Line, Now;
    }
  }

  lemma {:induction false} RunKeepsInvariant(p: Pool, steps: seq<Step>, q: Pool)
    requires Invariant(p) && Runs(p, steps, q)
    ensures Invariant(q)
    ensures p.stopped ==> q.stopped && q.accepted == p.accepted
    decreases |steps|
  {
    if steps != [] {
      InvariantKept(p, steps[0]);
      RunKeepsInvariant(Apply(p, steps[0]), steps[1..], q);
    }
  }

  /** After any run: no accepted job is lost or runs twice, tail insertions run in insertion order, and
      a worker that has left has run every accepted job. */
  lemma EveryJobOnce(steps: seq<Step>, q: Pool)
    requires Runs(NewPool, steps, q)
    ensures multiset(q.done) + multiset(Now(q.current)) + multiset(q.running) + multiset(q.work) == multiset(q.accepted)
    ensures q.tailOnly ==> q.done <= q.accepted
    ensures q.worker == Exited ==> multiset(q.done) == multiset(q.accepted)
    ensures q.worker == Exited && q.tailOnly ==> q.done == q.accepted
  {
    RunKeepsInvariant(NewPool, steps, q);
  }

  /** Once the pool is told to stop, no later step of any run adds to what is accepted. */
  lemma NothingAfterStop(p: Pool, steps: seq<Step>, q: Pool)
    requires Invariant(p) && p.stopped && Runs(p, steps, q)
    ensures q.accepted == p.accepted
  {
    RunKeepsInvariant(p, steps, q);
  }

  /** One locked section of the pool, or of its worker loop, is one method; the job calls of a batch
      happen outside the lock. */
  class SinglePool {
    var stopped: bool
    var work: seq<Ticket>
    var running: seq<Ticket>
    var current: Option<Ticket>
    var worker: Worker
    ghost var accepted: seq<Ticket>
    ghost var tailOnly: bool
    ghost var done: seq<Ticket>

    ghost function State(): Pool
      reads this
    {
      Pool(stopped, work, running, current, worker, accepted, tailOnly, done)
    }

    constructor ()
      ensures State() == NewPool
    {
      stopped, work, running, current, worker := false, [], [], None, Idle;
      accepted, tailOnly, done := [], true, [];
    }

    method InsertTail(t: Ticket) returns (ok: bool)
      modifies `work, `accepted
      ensures ok == !old(stopped) && State() == Apply(old(State()), Step.InsertTail(t))
      ensures work == if ok then old(work) + [t] else old(work)
    {
      if stopped {
        return false;
      }
      work, accepted := work + [t], accepted + [t];
      ok := true;
    }

    method InsertHead(t: Ticket) returns (ok: bool)
      modifies `work, `accepted, `tailOnly
      ensures ok == !old(stopped) && State() == Apply(old(State()), Step.InsertHead(t))
      ensures work == if ok then [t] + old(work) else old(work)
    {
      if stopped {
        return false;
      }
      work, accepted, tailOnly := [t] + work, accepted + [t], false;
      ok := true;
    }

    method Stop()
      modifies `stopped
      ensures State() == Apply(old(State()), Step.Stop) && stopped
    {
      stopped := true;
    }

    /** The top of the worker loop, up to the wait on the condition or to the release of the lock. */
    method Enter()
      requires worker == Idle
      modifies `work, `running, `worker
      ensures State() == Apply(old(State()), if old(work) != [] then Take else if old(stopped) then Leave else Wait)
      ensures if old(work) != [] then worker == Batch && running == old(running) + old(work) && work == []
              else worker == (if stopped then Exited else Waiting) && running == old(running)
    {
      if work == [] {
        worker := if stopped then Exited else Waiting;
      } else {
        Grab();
      }
    }

    /** The rest of that section: after the wait, or when there was work at once. */
    method Grab()
      requires worker == Waiting || (worker == Idle && work != [])
      modifies `work, `running, `worker
      ensures State() == Apply(old(State()), Take)
      ensures worker == Batch && running == old(running) + old(work) && work == []
    {
      running, work := running + work, [];
      worker := Batch;
    }

    /** Takes every job off the batch and calls it; nobody else touches the batch meanwhile. */
    method RunBatch()
      requires worker == Batch && current.None?
      modifies `running, `current, `worker, `done
      ensures State() == old(State()).(running := [], worker := Idle, done := old(done) + old(running))
      ensures Runs(old(State()), BatchSteps(|old(running)|), State())
    {
      hide Runs, BatchSteps;
      ghost var before := State();
      while running != []
        invariant worker == Batch && current.None?
        invariant State() == before.(running := running, done := done)
        invariant done + running == before.done + before.running
        invariant forall q :: Runs(State(), BatchSteps(|running|), q) ==> Runs(before, BatchSteps(|before.running|), q)
        decreases |running|
      {
        ghost var here := State();
        current, running := Some(running[0]), running[1..];
        done := done + [current.value];
        current := None;
        forall q | Runs(State(), BatchSteps(|running|), q) ensures Runs(here, BatchSteps(|here.running|), q) {
          OneCall(here, State(), q);
        }
      }
      ghost var here := State();
      worker := Idle;
      BatchEnds(here);
    }
  }

  /** One more job in front of the rest of a batch. */
  lemma OneCall(p: Pool, next: Pool, q: Pool)
    requires p.worker == Batch && p.current.None? && p.running != []
    requires next == p.(running := p.running[1..], done := p.done + [p.running[0]])
    requires Runs(next, BatchSteps(|next.running|), q)
    ensures Runs(p, BatchSteps(|p.running|), q)
  {
    var steps := BatchSteps(|p.running|);
    assert steps[0] == Start && steps[1..][0] == Finish && steps[1..][1..] == BatchSteps(|next.running|);
    assert Apply(Apply(p, Start), Finish) == next;
  }

  lemma BatchEnds(p: Pool)
    requires p.worker == Batch && p.current.None? && p.running == []
    ensures Runs(p, BatchSteps(0), p.(worker := Idle))
  {
    assert [EndBatch][1..] == [];
    assert Runs(Apply(p, EndBatch), [], Apply(p, EndBatch));
  }

  function BatchSteps(jobs: nat): seq<Step> {
    if jobs == 0 then [EndBatch] else [Start, Finish] + BatchSteps(jobs - 1)
  }

  // ---- several workers ----

  datatype Event = Started(t: Ticket) | Finished(t: Ticket)

  /** Pools of one thread each; hashed tickets accepted and job calls are logged across all of them.  `ahead`
      are the hashes under which something has been inserted at a head. */
  datatype Pools = Pools(workers: seq<Pool>, index: nat, accepted: seq<Ticket>, ahead: set<nat>, log: seq<Event>)

  datatype PoolsStep =
    | InsertHash(t: Ticket, head: bool)
    | InsertNext(t: Ticket, head: bool)
    | WorkerStep(i: nat, step: Step)

  const INDEX_WRAP := 0x1_0000_0000

  function Home(hash: nat, n: nat): (i: nat)
    requires n > 0
    ensures i < n
  {
    hash % n
  }

  predicate PoolsEnabled(m: Pools, step: PoolsStep) {
    && m.workers != []
    && match step
       case InsertHash(t, _) => t.hashed
       case InsertNext(t, _) => !t.hashed
       case WorkerStep(i, s) => i < |m.workers| && !s.InsertTail? && !s.InsertHead? && Enabled(m.workers[i], s)
  }

  function Insertion(t: Ticket, head: bool): Step {
    if head then InsertHead(t) else InsertTail(t)
  }

  function PoolsApply(m: Pools, step: PoolsStep): Pools
    requires PoolsEnabled(m, step)
  {
    match step
    case InsertHash(t, head) =>
      var i := Home(t.hash, |m.workers|);
      m.(workers := m.workers[i := Apply(m.workers[i], Insertion(t, head))],
         accepted := if m.workers[i].stopped then m.accepted else m.accepted + [t],
         ahead := if head then m.ahead + {t.hash} else m.ahead)
    case InsertNext(t, head) =>
      var i := Home(m.index, |m.workers|);
      m.(workers := m.workers[i := Apply(m.workers[i], Insertion(t, head))], index := (m.index + 1) % INDEX_WRAP)
    case WorkerStep(i, s) =>
      m.(workers := m.workers[i := Apply(m.workers[i], s)],
         log := if s.Start? then m.log + [Started(m.workers[i].running[0])]
                else if s.Finish? then m.log + [Finished(m.workers[i].current.value)]
                else m.log)
  }

  predicate PoolsRun(m: Pools, steps: seq<PoolsStep>, n: Pools)
    decreases |steps|
  {
    if steps == [] then m == n
    else PoolsEnabled(m, steps[0]) && PoolsRun(PoolsApply(m, steps[0]), steps[1..], n)
  }

  predicate Has(t: Ticket, hash: nat) {
    t.hashed && t.hash == hash
  }

  /** The tickets inserted under one hash value. */
  function Of(ts: seq<Ticket>, hash: nat): seq<Ticket> {
    if ts == [] then []
    else Of(ts[..|ts| - 1], hash) + if Has(ts[|ts| - 1], hash) then [ts[|ts| - 1]] else []
  }

  function EventsOf(log: seq<Event>, hash: nat): seq<Event> {
    if log == [] then []
    else EventsOf(log[..|log| - 1], hash) + if Has(log[|log| - 1].t, hash) then [log[|log| - 1]] else []
  }

  /** One call after the other, each finished before the next one starts. */
  function Calls(ts: seq<Ticket>): seq<Event> {
    if ts == [] then [] else Calls(ts[..|ts| - 1]) + [Started(ts[|ts| - 1]), Finished(ts[|ts| - 1])]
  }

  function CallsSoFar(p: Pool, hash: nat): seq<Event> {
    var finished := Calls(Of(p.done, hash));
    if p.current.Some? && Has(p.current.value, hash) then finished + [Started(p.current.value)] else finished
  }

  lemma {:induction false} OfAppend(a: seq<Ticket>, b: seq<Ticket>, hash: nat)
    ensures Of(a + b, hash) == Of(a, hash) + Of(b, hash)
  {
    if b == [] {
      assert a + b == a;
    } else {
      assert (a + b)[..|a + b| - 1] == a + b[..|b| - 1];
      OfAppend(a, b[..|b| - 1], hash);
    }
  }

  lemma OfLast(ts: seq<Ticket>, t: Ticket, hash: nat)
    ensures Of(ts + [t], hash) == if Has(t, hash) then Of(ts, hash) + [t] else Of(ts, hash)
  {
    assert (ts + [t])[..|ts|] == ts;
  }

  predicate HashKept(m: Pools, hash: nat)
    requires m.workers != []
  {
    var p := m.workers[Home(hash, |m.workers|)];
    && multiset(Of(Line(p), hash)) == multiset(Of(m.accepted, hash))
    && (hash !in m.ahead ==> Of(Line(p), hash) == Of(m.accepted, hash))
    && EventsOf(m.log, hash) == CallsSoFar(p, hash)
  }

  /** Tickets with a hash are only ever in the worker of that hash. */
  predicate AtHome(m: Pools)
    requires m.workers != []
  {
    forall i :: 0 <= i < |m.workers| ==> Invariant(m.workers[i]) && Housed(Line(m.workers[i]), i, |m.workers|)
  }

  predicate Housed(ts: seq<Ticket>, i: nat, n: nat)
    requires n > 0
  {
    forall k :: 0 <= k < |ts| && ts[k].hashed ==> Home(ts[k].hash, n) == i
  }

  ghost predicate PoolsInvariant(m: Pools) {
    && m.workers != []
    && AtHome(m)
    && forall hash: nat :: HashKept(m, hash)
  }

  /** What one worker step does to the calls under one hash. */
  lemma CallsAfter(p: Pool, step: Step, hash: nat)
    requires Enabled(p, step)
    ensures var before, after := CallsSoFar(p, hash), CallsSoFar(Apply(p, step), hash);
            if step.Start? && Has(p.running[0], hash) then after == before + [Started(p.running[0])]
            else if step.Finish? && Has(p.current.value, hash) then after == before + [Finished(p.current.value)]
            else after == before
  {
    hide Of, Calls;
    if step.Finish? {
      OfLast(p.done, p.current.value, hash);
      CallsLast(Of(p.done, hash), p.current.value);
    }
  }

  lemma CallsLast(ts: seq<Ticket>, t: Ticket)
    ensures Calls(ts + [t]) == (Calls(ts) + [Started(t)]) + [Finished(t)]
  {
    assert (ts + [t])[..|ts|] == ts;
  }

  lemma {:induction false} EventsAppend(log: seq<Event>, e: Event, hash: nat)
    ensures EventsOf(log + [e], hash) == if Has(e.t, hash) then EventsOf(log, hash) + [e] else EventsOf(log, hash)
  {
    assert (log + [e])[..|log|] == log;
  }

  /** The pool a step works on, and what it does there. */
  function Target(m: Pools, step: PoolsStep): (nat, Step)
    requires m.workers != []
  {
    match step
    case InsertHash(t, head) => (Home(t.hash, |m.workers|), Insertion(t, head))
    case InsertNext(t, head) => (Home(m.index, |m.workers|), Insertion(t, head))
    case WorkerStep(i, s) => (i, s)
  }

  lemma AtHomeKept(m: Pools, step: PoolsStep)
    requires PoolsInvariant(m) && PoolsEnabled(m, step)
    ensures AtHome(PoolsApply(m, step))
  {
    hide Apply, Enabled, Home, Line, Invariant, HashKept, Housed, PoolsApply, PoolsEnabled;
    TargetApplied(m, step);
    TargetHoused(m, step);
  }

  lemma TargetHoused(m: Pools, step: PoolsStep)
    requires PoolsInvariant(m) && PoolsEnabled(m, step)
    ensures var (i, s) := Target(m, step);
            && i < |m.workers| && Enabled(m.workers[i], s)
            && var q := Apply(m.workers[i], s); Invariant(q) && Housed(Line(q), i, |m.workers|)
  {
    var (i, s) := Target(m, step);
    TargetApplied(m, step);
    hide Apply, Enabled, Line, Invariant, HashKept, Housed, PoolsApply;
    InvariantKept(m.workers[i], s);
    HousedAfter(m.workers[i], s, i, |m.workers|);
  }

  lemma TargetApplied(m: Pools, step: PoolsStep)
    requires PoolsEnabled(m, step)
    ensures var (i, s) := Target(m, step);
            i < |m.workers| && Enabled(m.workers[i], s) && PoolsApply(m, step).workers == m.workers[i := Apply(m.workers[i], s)]
  {
    hide Apply, Home;
  }

  lemma HousedAfter(p: Pool, step: Step, i: nat, n: nat)
    requires n > 0 && Enabled(p, step) && Housed(Line(p), i, n)
    requires (step.InsertTail? || step.InsertHead?) && step.t.hashed ==> Home(step.t.hash, n) == i
    ensures Housed(Line(Apply(p, step)), i, n)
  {
    if step.InsertHead? {
      hide Home;
      var front := p.done + Now(p.current) + p.running;
      HousedBetween(front, step.t, p.work, i, n);
      assert Line(p) == front + p.work;
      assert !p.stopped ==> Line(Apply(p, step)) == front + ([step.t] + p.work);
    } else {
      LineAfter(p, step);
      hide Line, Home, Apply, Enabled;
    }
  }

  lemma HousedBetween(a: seq<Ticket>, t: Ticket, b: seq<Ticket>, i: nat, n: nat)
    requires n > 0 && Housed(a + b, i, n) && (t.hashed ==> Home(t.hash, n) == i)
    ensures Housed(a + ([t] + b), i, n)
  {
    var all := a + ([t] + b);
    forall k | 0 <= k < |all| && all[k].hashed ensures Home(all[k].hash, n) == i {
      if k < |a| {
        assert all[k] == (a + b)[k];
      } else if k > |a| {
        assert all[k] == (a + b)[k - 1];
      }
    }
  }

  /** What an insertion adds to the tickets of one hash: behind them, or somewhere among them. */
  lemma OfInserted(p: Pool, t: Ticket, head: bool, hash: nat)
    ensures var q := Apply(p, Insertion(t, head));
            && (p.stopped || !Has(t, hash) ==> Of(Line(q), hash) == Of(Line(p), hash))
            && (!p.stopped && Has(t, hash) ==>
                  && multiset(Of(Line(q), hash)) == multiset(Of(Line(p), hash)) + multiset{t}
                  && (!head ==> Of(Line(q), hash) == Of(Line(p), hash) + [t]))
  {
    if !p.stopped && head {
      OfInFront(p, t, hash);
    } else if !p.stopped {
      LineAfter(p, InsertTail(t));
      hide Line, Of;
      OfLast(Line(p), t, hash);
    }
  }

  lemma OfInFront(p: Pool, t: Ticket, hash: nat)
    requires !p.stopped
    ensures var before, after := Of(Line(p), hash), Of(Line(Apply(p, InsertHead(t))), hash);
            if Has(t, hash) then multiset(after) == multiset(before) + multiset{t} else after == before
  {
    hide Of;
    var front := p.done + Now(p.current) + p.running;
    assert Line(p) == front + p.work && Line(Apply(p, InsertHead(t))) == front + ([t] + p.work);
    OfBetween(front, t, p.work, hash);
  }

  lemma OfBetween(a: seq<Ticket>, t: Ticket, b: seq<Ticket>, hash: nat)
    ensures var before, after := Of(a + b, hash), Of(a + ([t] + b), hash);
            if Has(t, hash) then multiset(after) == multiset(before) + multiset{t} else after == before
  {
    OfAppend(a, b, hash);
    OfAppend(a, [t] + b, hash);
    OfAppend([t], b, hash);
    OfOne(t, hash);
    hide Of;
    if !Has(t, hash) {
      assert [] + Of(b, hash) == Of(b, hash);
    }
  }

  lemma OfOne(t: Ticket, hash: nat)
    ensures Of([t], hash) == if Has(t, hash) then [t] else []
  {
    assert [t] == [] + [t];
    OfLast([], t, hash);
  }

  lemma HashKeptByInsert(m: Pools, step: PoolsStep, hash: nat)
    requires PoolsInvariant(m) && PoolsEnabled(m, step) && !step.WorkerStep?
    ensures HashKept(PoolsApply(m, step), hash)
  {
    hide Line, Invariant, Of, CallsSoFar, EventsOf, AtHome, Apply, Home;
    var (i, s) := Target(m, step);
    assert HashKept(m, hash);
    OfInserted(m.workers[i], step.t, step.head, hash);
    CallsAfter(m.workers[i], s, hash);
    OfLast(m.accepted, step.t, hash);
    if i == Home(hash, |m.workers|) {
      OneMoreAccepted(Of(m.accepted, hash), step.t);
    }
  }

  lemma OneMoreAccepted(ts: seq<Ticket>, t: Ticket)
    ensures multiset(ts + [t]) == multiset(ts) + multiset{t}
  {
  }

  lemma HashKeptByWorker(m: Pools, step: PoolsStep, hash: nat)
    requires PoolsInvariant(m) && PoolsEnabled(m, step) && step.WorkerStep?
    ensures HashKept(PoolsApply(m, step), hash)
  {
    hide Line, Invariant, Of, CallsSoFar, EventsOf;
    var i, s := step.i, step.step;
    var p := m.workers[i];
    assert HashKept(m, hash);
    LineAfter(p, s);
    CallsAfter(p, s, hash);
    if s.Start? || s.Finish? {
      var t := if s.Start? then p.running[0] else p.current.value;
      EventsAppend(m.log, if s.Start? then Started(t) else Finished(t), hash);
      InLine(p, t);
      assert Housed(Line(p), i, |m.workers|);
    }
  }

  lemma InLine(p: Pool, t: Ticket)
    requires t in Now(p.current) || t in p.running
    ensures t in Line(p)
  {
  }

  lemma PoolsInvariantKept(m: Pools, step: PoolsStep)
    requires PoolsInvariant(m) && PoolsEnabled(m, step)
    ensures PoolsInvariant(PoolsApply(m, step))
  {
    hide HashKept, AtHome, Apply, Enabled;
    AtHomeKept(m, step);
    forall hash: nat ensures HashKept(PoolsApply(m, step), hash) {
      if step.WorkerStep? {
        HashKeptByWorker(m, step, hash);
      } else {
        HashKeptByInsert(m, step, hash);
      }
    }
  }

  lemma {:induction false} PoolsRunKeepsInvariant(m: Pools, steps: seq<PoolsStep>, n: Pools)
    requires PoolsInvariant(m) && PoolsRun(m, steps, n)
    ensures PoolsInvariant(n)
    decreases |steps|
  {
    if steps != [] {
      PoolsInvariantKept(m, steps[0]);
      PoolsRunKeepsInvariant(PoolsApply(m, steps[0]), steps[1..], n);
    }
  }

  /** In every run over any number of workers, the jobs accepted under one hash are called one after the other,
      each at most once: a call finishes before the next one starts.  Unless one of them was inserted at the
      head, they are called in the order in which they were accepted. */
  lemma SameHashInOrder(workers: nat, steps: seq<PoolsStep>, n: Pools, hash: nat)
    requires workers > 0
    requires PoolsRun(Pools(seq(workers, _ => NewPool), 0, [], {}, []), steps, n)
    ensures exists order: seq<Ticket>, k: nat ::
              && multiset(order) == multiset(Of(n.accepted, hash)) && (hash !in n.ahead ==> order == Of(n.accepted, hash))
              && k <= |order| && CallsInOrder(EventsOf(n.log, hash), order, k)
  {
    var m := Pools(seq(workers, _ => NewPool), 0, [], {}, []);
    FreshPools(workers);
    hide PoolsRun, Of, Calls, Line, EventsOf, Home, AtHome;
    PoolsRunKeepsInvariant(m, steps, n);
    assert HashKept(n, hash);
    var p := n.workers[Home(hash, |n.workers|)];
    SplitByDone(p, hash);
    var order, k := Of(Line(p), hash), |Of(p.done, hash)|;
    assert CallsInOrder(EventsOf(n.log, hash), order, k);
  }

  /** The first k jobs have been called to the end, and perhaps the next one has been started. */
  predicate CallsInOrder(events: seq<Event>, ts: seq<Ticket>, k: nat)
    requires k <= |ts|
  {
    || events == Calls(ts[..k])
    || (k < |ts| && events == Calls(ts[..k]) + [Started(ts[k])])
  }

  lemma FreshPools(workers: nat)
    requires workers > 0
    ensures PoolsInvariant(Pools(seq(workers, _ => NewPool), 0, [], {}, []))
  {
    var m := Pools(seq(workers, _ => NewPool), 0, [], {}, []);
    assert Line(NewPool) == [];
    forall hash: nat ensures HashKept(m, hash) {
      NothingOf(hash);
    }
    hide HashKept, Line;
  }

  lemma NothingOf(hash: nat)
    ensures Of([], hash) == [] && EventsOf([], hash) == [] && CallsSoFar(NewPool, hash) == []
  {
  }

  lemma SplitByDone(p: Pool, hash: nat)
    ensures var all, k := Of(Line(p), hash), |Of(p.done, hash)|;
            && k <= |all| && all[..k] == Of(p.done, hash)
            && (p.current.Some? && Has(p.current.value, hash) ==> k < |all| && all[k] == p.current.value)
  {
    var rest := Now(p.current) + p.running + p.work;
    assert Line(p) == p.done + rest;
    OfAppend(p.done, rest, hash);
    if p.current.Some? && Has(p.current.value, hash) {
      var t := p.current.value;
      assert rest == [t] + (p.running + p.work);
      OfAppend([t], p.running + p.work, hash);
      assert [t] == [] + [t];
      OfLast([], t, hash);
    }
  }

  /** In every run, whatever a worker still holds or has run under a hash is there because of that hash alone. */
  lemma HashedAtHome(workers: nat, steps: seq<PoolsStep>, n: Pools, i: nat, t: Ticket)
    requires workers > 0
    requires PoolsRun(Pools(seq(workers, _ => NewPool), 0, [], {}, []), steps, n)
    requires i < |n.workers| && t in Line(n.workers[i]) && t.hashed
    ensures |n.workers| == workers && i == t.hash % workers
  {
    var m := Pools(seq(workers, _ => NewPool), 0, [], {}, []);
    FreshPools(workers);
    hide Line, Invariant, HashKept;
    PoolsRunKeepsInvariant(m, steps, n);
    WorkersStay(m, steps, n);
    var k :| 0 <= k < |Line(n.workers[i])| && Line(n.workers[i])[k] == t;
    assert Housed(Line(n.workers[i]), i, |n.workers|);
  }

  /** The number of jobs inserted without a hash, at either end. */
  function Unhashed(steps: seq<PoolsStep>): nat {
    if steps == [] then 0 else Unhashed(steps[1..]) + if steps[0].InsertNext? then 1 else 0
  }

  /** They go round the workers: the index counts them modulo 2^32, whatever happens in between. */
  lemma {:induction false} WorkersStay(m: Pools, steps: seq<PoolsStep>, n: Pools)
    requires PoolsRun(m, steps, n)
    ensures |n.workers| == |m.workers|
    ensures m.index < 0x1_0000_0000 ==> n.index == (m.index + Unhashed(steps)) % 0x1_0000_0000
    decreases |steps|
  {
    hide PoolsApply, PoolsEnabled;
    if steps == [] {
      assert m.index < 0x1_0000_0000 ==> m.index % 0x1_0000_0000 == m.index;
    } else {
      IndexAfter(m, steps[0]);
      WorkersStay(PoolsApply(m, steps[0]), steps[1..], n);
      if m.index < 0x1_0000_0000 && steps[0].InsertNext? {
        WrapOnce(m.index, Unhashed(steps[1..]));
      }
    }
  }

  lemma IndexAfter(m: Pools, step: PoolsStep)
    requires PoolsEnabled(m, step)
    ensures var n := PoolsApply(m, step);
            && |n.workers| == |m.workers|
            && n.index == if step.InsertNext? then (m.index + 1) % 0x1_0000_0000 else m.index
  {
    hide Apply, Enabled, Home;
  }

  lemma WrapOnce(a: nat, u: nat)
    requires a < 0x1_0000_0000
    ensures (a + 1) % 0x1_0000_0000 < 0x1_0000_0000
    ensures ((a + 1) % 0x1_0000_0000 + u) % 0x1_0000_0000 == (a + (u + 1)) % 0x1_0000_0000
  {
    if a + 1 == 0x1_0000_0000 {
      assert (0x1_0000_0000 + u) % 0x1_0000_0000 == u % 0x1_0000_0000;
    }
  }

  /** The next such job goes to the worker whose turn it is, in front of what waits there or behind it. */
  lemma NextInTurn(workers: nat, steps: seq<PoolsStep>, n: Pools, t: Ticket, head: bool)
    requires workers > 0 && !t.hashed
    requires PoolsRun(Pools(seq(workers, _ => NewPool), 0, [], {}, []), steps, n)
    ensures PoolsEnabled(n, InsertNext(t, head)) && |n.workers| == workers
    ensures var i, m := Unhashed(steps) % 0x1_0000_0000 % workers, PoolsApply(n, InsertNext(t, head));
            var p, q := n.workers[i], m.workers[i];
            && q.work == (if p.stopped then p.work else if head then [t] + p.work else p.work + [t])
            && q.running == p.running && q.done == p.done && q.current == p.current
            && forall j :: 0 <= j < workers && j != i ==> m.workers[j] == n.workers[j]
  {
    WorkersStay(Pools(seq(workers, _ => NewPool), 0, [], {}, []), steps, n);
    hide PoolsRun, Unhashed;
  }

  class HashedPool {
    const pools: seq<SinglePool>
    var currentIndex: nat

    constructor (workers: nat)
      requires workers > 0
      ensures |pools| == workers && currentIndex == 0
      ensures forall i :: 0 <= i < workers ==> fresh(pools[i]) && pools[i].State() == NewPool
      ensures Distinct()
    {
      var made: seq<SinglePool> := [];
      while |made| < workers
        invariant |made| <= workers
        invariant forall i :: 0 <= i < |made| ==> fresh(made[i]) && made[i].State() == NewPool
        invariant forall i, j :: 0 <= i < j < |made| ==> made[i] != made[j]
      {
        var pool := new SinglePool();
        made := made + [pool];
      }
      pools, currentIndex := made, 0;
    }

    ghost predicate Distinct() {
      forall i, j :: 0 <= i < j < |pools| ==> pools[i] != pools[j]
    }

    ghost function States(): seq<Pool>
      reads pools
    {
      seq(|pools|, i requires 0 <= i < |pools| reads pools => pools[i].State())
    }

    method InsertTailHash(t: Ticket, ghost was: Pools) returns (ok: bool)
      requires pools != [] && Distinct() && t.hashed && was.workers == States()
      modifies pools
      ensures ok == !old(States())[Home(t.hash, |pools|)].stopped
      ensures States() == PoolsApply(was, PoolsStep.InsertHash(t, false)).workers
      ensures var p := pools[t.hash % |pools|]; p.work == if ok then old(p.work) + [t] else old(p.work)
      ensures forall i :: 0 <= i < |pools| && i != t.hash % |pools| ==> pools[i].State() == old(pools[i].State())
    {
      ok := pools[Home(t.hash, |pools|)].InsertTail(t);
    }

    method InsertHeadHash(t: Ticket, ghost was: Pools) returns (ok: bool)
      requires pools != [] && Distinct() && t.hashed && was.workers == States()
      modifies pools
      ensures ok == !old(States())[Home(t.hash, |pools|)].stopped
      ensures States() == PoolsApply(was, PoolsStep.InsertHash(t, true)).workers
      ensures var p := pools[t.hash % |pools|]; p.work == if ok then [t] + old(p.work) else old(p.work)
      ensures forall i :: 0 <= i < |pools| && i != t.hash % |pools| ==> pools[i].State() == old(pools[i].State())
    {
      ok := pools[Home(t.hash, |pools|)].InsertHead(t);
    }

    method InsertTail(t: Ticket, ghost was: Pools) returns (ok: bool)
      requires pools != [] && Distinct() && !t.hashed && was.workers == States() && was.index == currentIndex
      modifies pools, `currentIndex
      ensures ok == !old(States())[Home(old(currentIndex), |pools|)].stopped
      ensures was.(workers := States(), index := currentIndex) == PoolsApply(was, PoolsStep.InsertNext(t, false))
      ensures currentIndex == (old(currentIndex) + 1) % 0x1_0000_0000
      ensures var p := pools[old(currentIndex) % |pools|]; p.work == if ok then old(p.work) + [t] else old(p.work)
      ensures forall i :: 0 <= i < |pools| && i != old(currentIndex) % |pools| ==> pools[i].State() == old(pools[i].State())
    {
      var i := currentIndex;
      currentIndex := (currentIndex + 1) % INDEX_WRAP;
      ok := pools[Home(i, |pools|)].InsertTail(t);
    }

    method InsertHead(t: Ticket, ghost was: Pools) returns (ok: bool)
      requires pools != [] && Distinct() && !t.hashed && was.workers == States() && was.index == currentIndex
      modifies pools, `currentIndex
      ensures ok == !old(States())[Home(old(currentIndex), |pools|)].stopped
      ensures was.(workers := States(), index := currentIndex) == PoolsApply(was, PoolsStep.InsertNext(t, true))
      ensures currentIndex == (old(currentIndex) + 1) % 0x1_0000_0000
      ensures var p := pools[old(currentIndex) % |pools|]; p.work == if ok then [t] + old(p.work) else old(p.work)
      ensures forall i :: 0 <= i < |pools| && i != old(currentIndex) % |pools| ==> pools[i].State() == old(pools[i].State())
    {
      var i := currentIndex;
      currentIndex := (currentIndex + 1) % INDEX_WRAP;
      ok := pools[Home(i, |pools|)].InsertHead(t);
    }
  }
}
