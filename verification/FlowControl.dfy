/** How the server limits the read buffers of a connection (corecode/server/Server.c): the read that would go
    into the buffer reaching the limit is parked, and taken up again when the count is down to one half. */
module FlowControl {
  datatype Flow = Flow(
    limit: nat,
    counter: nat,    // read_counter: the buffers counted and not freed
    parking: bool,   // the read callback has counted the buffer that reached the limit, and not stored it yet
    parked: bool,    // one of them waits in to_read_buf
    reading: bool,   // a read is armed, or its callback may still count a buffer
    waking: nat)     // releases that met one half exactly, and have not yet taken the lock

  /** Refuse is a wake-up whose read the connection does not take, so that the parked buffer is freed. */
  datatype Step = Count | Park | FreeBuffer | Wake | Refuse

  function Connected(limit: nat): Flow {
    Flow(limit, 1, false, false, true, 0)
  }

  predicate Enabled(f: Flow, step: Step) {
    match step
    case Count => f.reading
    case Park => f.parking
    // the callback holds the old and the new buffer until it has parked, and nobody frees a parked one
    case FreeBuffer => f.counter > if f.parking then 2 else if f.parked then 1 else 0
    case Wake | Refuse => f.waking > 0
  }

  function Apply(f: Flow, step: Step): Flow
    requires Enabled(f, step)
  {
    match step
    case Count =>
      if f.counter + 1 == f.limit then f.(counter := f.counter + 1, parking := true, reading := false)
      else f.(counter := f.counter + 1)
    case Park => f.(parking := false, parked := true)
    case FreeBuffer => Freed(f)
    case Wake =>
      f.(waking := f.waking - 1, parked := false, reading := f.reading || f.parked)
    case Refuse =>
      var g := f.(waking := f.waking - 1, parked := false);
      if f.parked && f.counter > 0 then Freed(g) else g
  }

  /** One buffer less; whoever meets one half exactly goes on to wake the parked one. */
  function Freed(f: Flow): Flow
    requires f.counter > 0
  {
    f.(counter := f.counter - 1, waking := if f.counter - 1 == f.limit / 2 then f.waking + 1 else f.waking)
  }

  /** A wake-up that finds a parked buffer takes up reading only below the limit; a check the code could make
      under the lock it holds. */
  predicate Timely(f: Flow, step: Step) {
    step.Wake? && f.parked ==> f.counter < f.limit
  }

  predicate Runs(f: Flow, steps: seq<Step>, end: Flow)
    decreases |steps|
  {
    if steps == [] then f == end
    else Enabled(f, steps[0]) && Runs(Apply(f, steps[0]), steps[1..], end)
  }

  predicate RunsTimely(f: Flow, steps: seq<Step>, end: Flow)
    decreases |steps|
  {
    if steps == [] then f == end
    else Enabled(f, steps[0]) && Timely(f, steps[0]) && RunsTimely(Apply(f, steps[0]), steps[1..], end)
  }

  predicate Bounded(f: Flow) {
    f.counter <= f.limit && (f.counter == f.limit ==> f.parked || f.parking)
  }

  /** A buffer that is parked, or about to be, is the only one: to_read_buf is empty when it is stored, and
      meanwhile nothing is read. */
  predicate OneReader(f: Flow) {
    (if f.reading then 1 else 0) + (if f.parking then 1 else 0) + (if f.parked then 1 else 0) <= 1
  }

  lemma OneReaderKept(f: Flow, step: Step)
    requires OneReader(f) && Enabled(f, step)
    ensures OneReader(Apply(f, step)) && Apply(f, step).limit == f.limit
  {
  }

  lemma BoundedKept(f: Flow, step: Step)
    requires f.limit >= 2 && Bounded(f) && OneReader(f) && Enabled(f, step) && Timely(f, step)
    ensures Bounded(Apply(f, step))
  {
  }

  lemma {:induction false} RunKeepsOneReader(f: Flow, steps: seq<Step>, end: Flow)
    requires OneReader(f) && Runs(f, steps, end)
    ensures OneReader(end) && end.limit == f.limit
    decreases |steps|
  {
    if steps != [] {
      OneReaderKept(f, steps[0]);
      RunKeepsOneReader(Apply(f, steps[0]), steps[1..], end);
    }
  }

  lemma {:induction false} RunKeepsBounded(f: Flow, steps: seq<Step>, end: Flow)
    requires f.limit >= 2 && Bounded(f) && OneReader(f) && RunsTimely(f, steps, end)
    ensures Bounded(end) && OneReader(end) && end.limit == f.limit
    decreases |steps|
  {
    if steps != [] {
      BoundedKept(f, steps[0]);
      OneReaderKept(f, steps[0]);
      RunKeepsBounded(Apply(f, steps[0]), steps[1..], end);
    }
  }

  /** A run with timely wake-ups leads beyond the limit. */
  ghost predicate CanExceed(f: Flow) {
    exists steps: seq<Step>, end: Flow :: RunsTimely(f, steps, end) && end.counter > f.limit
  }

  /** With timely wake-ups no run exceeds the limit, exactly if the limit is at least two. */
  lemma LimitHolds(limit: nat)
    ensures CanExceed(Connected(limit)) <==> limit < 2
  {
    var start := Connected(limit);
    if limit < 2 {
      OneMoreBuffer(start);
    } else {
      forall steps: seq<Step>, end: Flow | RunsTimely(start, steps, end) ensures end.counter <= limit {
        RunKeepsBounded(start, steps, end);
      }
    }
  }

  lemma OneMoreBuffer(f: Flow)
    requires f.reading && f.counter >= f.limit
    ensures CanExceed(f)
  {
    var next := Apply(f, Count);
    assert RunsTimely(next, [], next);
    assert [Count][1..] == [];
    assert RunsTimely(f, [Count], next);
  }

  /** And that is the exact condition: after any run that has kept it, a wake-up is timely exactly if no run
      going on from it exceeds the limit. */
  lemma WakeIsTimely(limit: nat, steps: seq<Step>, f: Flow)
    requires limit >= 2 && RunsTimely(Connected(limit), steps, f) && Enabled(f, Wake)
    ensures Timely(f, Wake) <==> !CanExceed(Apply(f, Wake))
  {
    RunKeepsBounded(Connected(limit), steps, f);
    var next := Apply(f, Wake);
    if Timely(f, Wake) {
      BoundedKept(f, Wake);
      OneReaderKept(f, Wake);
      forall more: seq<Step>, end: Flow | RunsTimely(next, more, end) ensures end.counter <= next.limit {
        RunKeepsBounded(next, more, end);
      }
    } else {
      OneMoreBuffer(next);
    }
  }

  // ---- whether a parked buffer is taken up again ----

  /** Somebody is about to wake the parked buffer, or the releases to come will meet one half. */
  predicate Awaited(f: Flow) {
    f.waking > 0 || f.counter > f.limit / 2
  }

  /** The connection reads again in some run. */
  ghost predicate CanRead(f: Flow) {
    exists steps: seq<Step>, end: Flow :: Runs(f, steps, end) && end.reading
  }

  /** After any run with a limit of at least two: a parked buffer is taken up again in some run exactly if it is
      awaited; otherwise the connection never reads again. */
  lemma ParkedIsResumed(limit: nat, steps: seq<Step>, f: Flow)
    requires limit >= 2 && Runs(Connected(limit), steps, f) && f.parked
    ensures !f.reading && (CanRead(f) <==> Awaited(f))
  {
    RunKeepsOneReader(Connected(limit), steps, f);
    if Awaited(f) {
      FreesThenReads(f);
    } else {
      forall more: seq<Step>, end: Flow | Runs(f, more, end) ensures !end.reading {
        ForgottenStays(f, more, end);
      }
    }
  }

  /** So parking leaves the connection able to read exactly if the releases since the count have not brought it
      down to one half, or one that has met one half has still to look for the parked buffer. */
  lemma ParkIsAwaited(limit: nat, steps: seq<Step>, f: Flow)
    requires limit >= 2 && Runs(Connected(limit), steps, f) && Enabled(f, Park)
    ensures CanRead(Apply(f, Park)) <==> f.waking > 0 || f.counter > limit / 2
  {
    RunKeepsOneReader(Connected(limit), steps, f);
    RunsMore(Connected(limit), steps, f, Park);
    ParkedIsResumed(limit, steps + [Park], Apply(f, Park));
  }

  /** While a parked buffer is awaited it stays so, whatever happens, until it is taken up. */
  lemma AwaitedStays(f: Flow, step: Step)
    requires f.parked && OneReader(f) && Awaited(f) && Enabled(f, step)
    ensures Apply(f, step).parked ==> Awaited(Apply(f, step))
  {
  }

  lemma {:induction false} ForgottenStays(f: Flow, steps: seq<Step>, end: Flow)
    requires f.parked && OneReader(f) && !Awaited(f) && Runs(f, steps, end)
    ensures !end.reading
    decreases |steps|
  {
    if steps != [] {
      ForgottenStays(Apply(f, steps[0]), steps[1..], end);
    }
  }

  lemma {:induction false} RunsMore(f: Flow, steps: seq<Step>, mid: Flow, step: Step)
    requires Runs(f, steps, mid) && Enabled(mid, step)
    ensures Runs(f, steps + [step], Apply(mid, step))
    decreases |steps|
  {
    hide Enabled, Apply;
    var all := steps + [step];
    if steps == [] {
      assert all[1..] == [] && all[0] == step;
    } else {
      RunsMore(Apply(f, steps[0]), steps[1..], mid, step);
      assert all[1..] == steps[1..] + [step] && all[0] == steps[0];
    }
  }

  /** One more step in front of a run. */
  lemma Before(f: Flow, step: Step, rest: seq<Step>, end: Flow) returns (steps: seq<Step>)
    requires Enabled(f, step) && Runs(Apply(f, step), rest, end)
    ensures Runs(f, steps, end)
  {
    steps := [step] + rest;
    assert steps[1..] == rest;
  }

  /** Releases down to one half, and the wake-up. */
  lemma {:induction false} FreesThenReads(f: Flow)
    requires f.limit >= 2 && f.parked && OneReader(f) && Awaited(f)
    ensures CanRead(f)
    decreases f.counter
  {
    var step := if f.waking > 0 then Wake else FreeBuffer;
    var next := Apply(f, step);
    if step.Wake? {
      assert Runs(next, [], next);
      var steps := Before(f, Wake, [], next);
    } else {
      FreesThenReads(next);
      var more, end :| Runs(next, more, end) && end.reading;
      var steps := Before(f, FreeBuffer, more, end);
    }
  }

  /** Releases that meet one half between the count and the store find nothing to wake: a run after which the
      connection never reads again. */
  lemma ParkedForGood()
    ensures exists steps: seq<Step>, end: Flow ::
              Runs(Connected(4), steps, end) && end.parked && !end.reading && end.counter == 2 && !CanRead(end)
  {
    var end := Flow(4, 2, false, true, false, 0);
    assert Runs(end, [], end);
    hide Runs, CanRead;
    var steps := Before(Flow(4, 2, true, false, false, 0), Park, [], end);
    steps := Before(Flow(4, 2, true, false, false, 1), Wake, steps, end);
    steps := Before(Flow(4, 3, true, false, false, 0), FreeBuffer, steps, end);
    steps := Before(Flow(4, 4, true, false, false, 0), FreeBuffer, steps, end);
    steps := Before(Flow(4, 3, false, false, true, 0), Count, steps, end);
    steps := Before(Flow(4, 2, false, false, true, 0), Count, steps, end);
    steps := Before(Flow(4, 1, false, false, true, 0), Count, steps, end);
    ParkedIsResumed(4, steps, end);
    assert Runs(Connected(4), steps, end);
  }

  /** A wake-up that arrives late, after new buffers have been counted and one has been parked, lets the
      count pass the limit. */
  lemma LateWakeUp()
    ensures exists steps: seq<Step>, end: Flow :: Runs(Connected(4), steps, end) && end.counter > 4
  {
    var end := Flow(4, 5, false, false, true, 0);
    assert Runs(end, [], end);
    hide Runs;
    var steps := Before(Flow(4, 4, false, false, true, 0), Count, [], end);
    steps := Before(Flow(4, 4, false, true, false, 1), Wake, steps, end);
    steps := Before(Flow(4, 4, true, false, false, 1), Park, steps, end);
    steps := Before(Flow(4, 3, false, false, true, 1), Count, steps, end);
    steps := Before(Flow(4, 2, false, false, true, 1), Count, steps, end);
    steps := Before(Flow(4, 3, false, false, true, 0), FreeBuffer, steps, end);
    steps := Before(Flow(4, 2, false, false, true, 0), Count, steps, end);
    steps := Before(Flow(4, 1, false, false, true, 0), Count, steps, end);
    assert Runs(Connected(4), steps, end);
  }

  // ---- the code ----

  /** The counters of one connection of the server, with the places that change them. */
  class ReadLimit {
    const limit: nat
    var readCounter: nat
    var toReadBuf: bool      // to_read_buf is set
    var reading: bool
    ghost var parking: bool
    ghost var waking: nat

    ghost function State(): Flow
      reads this
    {
      Flow(limit, readCounter, parking, toReadBuf, reading, waking)
    }

    constructor (limit: nat)
      ensures this.limit == limit && State() == Connected(limit)
    {
      this.limit, readCounter, toReadBuf, reading, parking, waking := limit, 1, false, true, false, 0;
    }

    /** The part of serverRead that has put the left-over bytes into a new buffer counts it atomically, and goes on
        reading below the limit. */
    method CountBuffer() returns (goOn: bool)
      requires reading && !parking
      modifies this
      ensures State() == Apply(old(State()), Count) && goOn == !parking
      ensures readCounter == old(readCounter) + 1 && (goOn <==> readCounter != limit) && reading == goOn
    {
      readCounter := readCounter + 1;
      goOn := readCounter != limit;
      if !goOn {
        reading, parking := false, true;
      }
    }

    /** Its locked section, with the assertion that nothing is parked yet. */
    method ParkBuffer()
      requires parking && OneReader(State())
      modifies this
      ensures !old(toReadBuf) && State() == Apply(old(State()), Park)
      ensures toReadBuf && readCounter == old(readCounter) && reading == old(reading)
    {
      assert !toReadBuf;
      toReadBuf, parking := true, false;
    }

    /** The atomic part of serverReadDone: the last reference to a buffer is gone.  Whoever meets one half has to
        look for a parked buffer. */
    method UncountBuffer() returns (half: bool)
      requires Enabled(State(), FreeBuffer)
      modifies this
      ensures State() == Apply(old(State()), FreeBuffer) && half == (waking > old(waking))
      ensures readCounter == old(readCounter) - 1 && (half <==> readCounter == limit / 2) && toReadBuf == old(toReadBuf)
    {
      readCounter := readCounter - 1;
      half := readCounter == limit / 2;
      if half {
        waking := waking + 1;
      }
    }

    /** Its locked section.  `refused` is the answer of the connection to the read of a parked buffer. */
    method WakeParked(refused: bool)
      requires waking > 0 && OneReader(State()) && (toReadBuf ==> readCounter > 0)
      modifies this
      ensures State() == Apply(old(State()), if refused then Refuse else Wake)
      ensures !toReadBuf && reading == (old(reading) || (old(toReadBuf) && !refused))
      ensures readCounter == old(readCounter) - if old(toReadBuf) && refused then 1 else 0
    {
      waking := waking - 1;
      if toReadBuf {
        toReadBuf := false;
        if refused {
          var half := UncountBuffer();
        } else {
          reading := true;
        }
      }
    }
  }
}
