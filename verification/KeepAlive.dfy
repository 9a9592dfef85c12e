/** The keep-alive chain of an object service (libs/cluster/ClusterMapObjectService.c) and the worker that
    starts it (corecode/util/HouseKeeping.c).  Requests accepted by the client are answered once; which
    answer comes, and when, is open.  Every call of a continuation, every change of the map's reference
    count and every start of a callback is one step. */
module KeepAlive {
  datatype Status = Online | Syncing | Offline | ReadyToJoin

  datatype ToPut = Nothing | OwnReference | HeldReference

  /** How far one round of the chain, with its argument, has come.  A callback that is ending still has to put a
      reference to the map, to call the continuation, and to start the synchronisation or free the argument. */
  datatype Stage =
    | Queued         // in the pool
    | Working        // in the worker function
    | KeepAliveSent
    | LogSent        // asked for the change log
    | SyncRunning
    | Ending(put: ToPut, call: bool, sync: bool)
    | Done

  datatype Chain = Chain(
    stage: Stage,
    own: bool,      // the worker function still holds its reference to the map
    held: nat,      // references the argument stands for
    called: nat,    // times the housekeeping continuation has been called
    freed: nat)     // times the argument has been freed

  const NewChain := Chain(Queued, false, 0, 0, 0)

  /** The housekeeping worker; `failed` records that the assertion of its callback has failed. */
  datatype Worker = Worker(interval: int, busy: bool, counter: int, failed: bool)

  datatype State = State(worker: Worker, reqStatus: Status, osStatus: Status, reference: int, chains: seq<Chain>)

  function NewWorker(interval: int): Worker {
    Worker(interval, false, interval, false)
  }

  function Started(interval: int, osStatus: Status): State {
    State(NewWorker(interval), ReadyToJoin, osStatus, 1, [])
  }

  /** One look of the housekeeping thread at a worker. */
  function Ticked(w: Worker): Worker {
    if w.busy then w
    else if w.counter - 1 == 0 then w.(busy := true, counter := 0)
    else w.(counter := w.counter - 1)
  }

  /** The housekeeping callback, with its assertion. */
  function Resumed(w: Worker): Worker {
    Worker(w.interval, false, w.interval, if w.busy && w.counter == 0 then w.failed else true)
  }

  datatype Answer = Error | Newer(accepted: bool) | Same

  datatype Step =
    | Tick
    | Begin(i: nat)
    | Send(i: nat, accepted: bool)
    | PutWorker(i: nat)
    | Answered(i: nat, answer: Answer)
    | LogAnswered(i: nat, error: bool)
    | SyncDone(i: nat)
    | Do(i: nat)

  predicate Enabled(s: State, step: Step) {
    match step
    case Tick => true
    case Begin(i) => i < |s.chains| && s.chains[i].stage == Queued
    case Send(i, _) => i < |s.chains| && s.chains[i].stage == Working
    case PutWorker(i) => i < |s.chains| && s.chains[i].own && !s.chains[i].stage.Working? && !(s.chains[i].stage.Ending? && s.chains[i].stage.put.OwnReference?)
    case Answered(i, _) => i < |s.chains| && s.chains[i].stage == KeepAliveSent
    case LogAnswered(i, _) => i < |s.chains| && s.chains[i].stage == LogSent
    case SyncDone(i) => i < |s.chains| && s.chains[i].stage == SyncRunning
    case Do(i) => i < |s.chains| && s.chains[i].stage.Ending?
  }

  function With(s: State, i: nat, c: Chain): State
    requires i < |s.chains|
  {
    s.(chains := s.chains[i := c])
  }

  /** What the guarded branches do on an error: an unfinished synchronisation is not forgotten. */
  function Unreachable(s: State): State {
    if s.reqStatus != Syncing then s.(osStatus := Offline, reqStatus := ReadyToJoin) else s
  }

  function Less(n: nat): nat {
    if n > 0 then n - 1 else 0
  }

  /** The chain after its next thing has been done. */
  function Next(c: Chain): Chain
    requires c.stage.Ending?
  {
    var e := c.stage;
    if e.put.OwnReference? then c.(own := false, stage := Ending(Nothing, e.call, e.sync))
    else if e.put.HeldReference? then c.(held := Less(c.held), stage := Ending(Nothing, e.call, e.sync))
    else if e.call then c.(called := c.called + 1, stage := Ending(Nothing, false, e.sync))
    else if e.sync then c.(stage := SyncRunning)
    else c.(freed := c.freed + 1, stage := Done)
  }

  predicate Puts(stage: Stage) {
    stage.Ending? && !stage.put.Nothing?
  }

  predicate Calls(stage: Stage) {
    stage.Ending? && stage.put.Nothing? && stage.call
  }

  function Perform(s: State, i: nat): State
    requires i < |s.chains| && s.chains[i].stage.Ending?
  {
    var t := With(s, i, Next(s.chains[i]));
    if Puts(s.chains[i].stage) then t.(reference := s.reference - 1)
    else if Calls(s.chains[i].stage) then t.(worker := Resumed(s.worker))
    else t
  }

  function Apply(s: State, step: Step): State
    requires Enabled(s, step)
  {
    match step
    case Tick =>
      var t := s.(worker := Ticked(s.worker));
      if t.worker.busy && !s.worker.busy then t.(chains := s.chains + [NewChain]) else t
    case Begin(i) => With(s, i, s.chains[i].(stage := Working, own := true)).(reference := s.reference + 1)
    case Send(i, accepted) =>
      if accepted then With(s, i, s.chains[i].(stage := KeepAliveSent))
      else
        With(s, i, s.chains[i].(stage := Ending(OwnReference, true, false))).(osStatus := Offline, reqStatus := ReadyToJoin)
    case PutWorker(i) => With(s, i, s.chains[i].(own := false)).(reference := s.reference - 1)
    case Answered(i, answer) =>
      var t := s.(reference := s.reference + 1);
      var c := s.chains[i].(held := s.chains[i].held + 1, stage := Ending(HeldReference, true, false));
      (match answer
       case Error => Unreachable(With(t, i, c))
       case Newer(accepted) =>
         if accepted then With(t, i, c.(stage := LogSent))
         else With(t, i, c).(osStatus := Offline, reqStatus := ReadyToJoin)
       case Same =>
         if s.reqStatus == ReadyToJoin then
           With(t, i, c.(stage := Ending(Nothing, true, true))).(osStatus := Syncing, reqStatus := Syncing)
         else With(t, i, c))
    case LogAnswered(i, error) =>
      var t := With(s, i, s.chains[i].(stage := Ending(HeldReference, true, false)));
      if error then Unreachable(t) else t
    case SyncDone(i) =>
      With(s, i, s.chains[i].(stage := Ending(HeldReference, false, false))).(osStatus := Online, reqStatus := Online)
    case Do(i) => Perform(s, i)
  }

  predicate Runs(s: State, steps: seq<Step>, end: State)
    decreases |steps|
  {
    if steps == [] then s == end
    else Enabled(s, steps[0]) && Runs(Apply(s, steps[0]), steps[1..], end)
  }

  /** What is left to do, held and done always fit together. */
  predicate Linear(c: Chain) {
    match c.stage
    case Queued => !c.own && c.held == 0 && c.called == 0 && c.freed == 0
    case Working => c.own && c.held == 0 && c.called == 0 && c.freed == 0
    case KeepAliveSent => c.held == 0 && c.called == 0 && c.freed == 0
    case LogSent => c.held == 1 && c.called == 0 && c.freed == 0
    case SyncRunning => c.held == 1 && c.called == 1 && c.freed == 0
    case Ending(put, call, sync) =>
      && (put.OwnReference? ==> c.own && call)
      && (sync ==> put.Nothing?)
      && c.held == (if put.HeldReference? || sync then 1 else 0) && c.called == (if call then 0 else 1) && c.freed == 0
    case Done => c.held == 0 && c.called == 1 && c.freed == 1
  }

  function References(c: Chain): nat {
    if c.own then c.held + 1 else c.held
  }

  function Sum(chains: seq<Chain>): nat {
    if chains == [] then 0 else Sum(chains[..|chains| - 1]) + References(chains[|chains| - 1])
  }

  /** Waiting with a counter in 1..interval, or busy with the counter at zero, and never caught otherwise. */
  predicate Housekeeping(w: Worker) {
    !w.failed && if w.busy then w.counter == 0 else 1 <= w.counter <= w.interval
  }

  /** Only the last round can still owe the continuation, and does so exactly while the worker is busy. */
  predicate OneOwes(chains: seq<Chain>, busy: bool) {
    && (forall i :: 0 <= i < |chains| - 1 ==> chains[i].called == 1)
    && (if chains == [] then !busy else chains[|chains| - 1].called == if busy then 0 else 1)
  }

  predicate Invariant(s: State) {
    && Housekeeping(s.worker) && OneOwes(s.chains, s.worker.busy)
    && (forall i :: 0 <= i < |s.chains| ==> Linear(s.chains[i]))
    && s.reference == 1 + Sum(s.chains)
  }

  lemma {:induction false} SumUpdate(chains: seq<Chain>, i: nat, c: Chain)
    requires i < |chains|
    ensures Sum(chains[i := c]) == Sum(chains) + References(c) - References(chains[i])
  {
    var n := |chains| - 1;
    if i < n {
      SumUpdate(chains[..n], i, c);
      assert chains[i := c][..n] == chains[..n][i := c];
    } else {
      assert chains[i := c][..n] == chains[..n];
    }
  }

  lemma SumAppend(chains: seq<Chain>, c: Chain)
    ensures Sum(chains + [c]) == Sum(chains) + References(c)
  {
    assert (chains + [c])[..|chains|] == chains;
  }

  /** What a step does to the chain it belongs to, and to the things all chains share. */
  predicate Fits(s: State, t: State, i: nat) {
    && i < |s.chains| == |t.chains| && t.chains == s.chains[i := t.chains[i]]
    && Linear(t.chains[i])
    && t.reference - s.reference == References(t.chains[i]) - References(s.chains[i])
    && t.worker.interval == s.worker.interval
  }

  /** A step either calls the continuation, once, or leaves worker and continuation alone. */
  predicate Continues(s: State, t: State, i: nat)
    requires i < |s.chains| == |t.chains|
  {
    && (t.chains[i].called == s.chains[i].called ==> t.worker == s.worker)
    && (t.chains[i].called != s.chains[i].called ==>
          s.chains[i].called == 0 && t.chains[i].called == 1 && t.worker == Resumed(s.worker))
  }

  lemma NextFits(c: Chain)
    requires Linear(c) && c.stage.Ending?
    ensures Linear(Next(c))
    ensures References(Next(c)) == References(c) - (if Puts(c.stage) then 1 else 0)
    ensures if Calls(c.stage) then c.called == 0 && Next(c).called == 1 else Next(c).called == c.called
    ensures !(Puts(c.stage) && Calls(c.stage))
  {
  }

  lemma PerformFits(s: State, i: nat)
    requires i < |s.chains| && Linear(s.chains[i]) && s.chains[i].stage.Ending?
    ensures Fits(s, Perform(s, i), i) && Continues(s, Perform(s, i), i)
  {
    hide Next, Linear, Puts, Calls, References;
    NextFits(s.chains[i]);
  }

  lemma LinearAnswered(c: Chain, next: Stage)
    requires Linear(c) && c.stage.KeepAliveSent?
    requires next.LogSent? || (next.Ending? && next.call && if next.sync then next.put.Nothing? else next.put.HeldReference?)
    ensures var d := c.(held := c.held + 1, stage := next);
            Linear(d) && References(d) == References(c) + 1 && d.called == c.called
  {
  }

  lemma AfterAnswer(s: State, i: nat, answer: Answer)
    requires Enabled(s, Answered(i, answer)) && Linear(s.chains[i])
    ensures Fits(s, Apply(s, Answered(i, answer)), i) && Continues(s, Apply(s, Answered(i, answer)), i)
  {
    hide Perform, Next, Linear, References;
    LinearAnswered(s.chains[i], Ending(HeldReference, true, false));
    LinearAnswered(s.chains[i], LogSent);
    LinearAnswered(s.chains[i], Ending(Nothing, true, true));
  }

  lemma ChainFits(s: State, step: Step)
    requires Enabled(s, step) && !step.Tick? && Linear(s.chains[step.i])
    ensures Fits(s, Apply(s, step), step.i) && Continues(s, Apply(s, step), step.i)
  {
    hide Perform, Next, Linear;
    match step {
      case Do(i) => PerformFits(s, i);
      case Answered(i, answer) => AfterAnswer(s, i, answer);
      case Begin(i) => AfterBegin(s, i);
      case _ => AfterOther(s, step);
    }
  }

  lemma LinearBegins(c: Chain)
    requires Linear(c) && c.stage == Queued
    ensures References(c) == 0
    ensures var d := c.(stage := Working, own := true); Linear(d) && References(d) == 1 && d.called == c.called
  {
  }

  lemma AfterBegin(s: State, i: nat)
    requires Enabled(s, Begin(i)) && Linear(s.chains[i])
    ensures Fits(s, Apply(s, Begin(i)), i) && Continues(s, Apply(s, Begin(i)), i)
  {
    hide Perform, Next, Linear, References;
    LinearBegins(s.chains[i]);
  }

  lemma AfterOther(s: State, step: Step)
    requires Enabled(s, step) && (step.Send? || step.PutWorker? || step.LogAnswered? || step.SyncDone?)
    requires Linear(s.chains[step.i])
    ensures Fits(s, Apply(s, step), step.i) && Continues(s, Apply(s, step), step.i)
  {
    hide Perform, Next;
    match step {
      case Send(i, accepted) =>
      case PutWorker(i) => OwnPut(s.chains[i]);
      case LogAnswered(i, error) =>
      case SyncDone(i) =>
    }
  }

  /** The worker function's own reference is independent of what the rest of the round does. */
  lemma OwnPut(c: Chain)
    requires Linear(c) && c.own && !c.stage.Working? && !(c.stage.Ending? && c.stage.put.OwnReference?)
    ensures Linear(c.(own := false))
  {
  }

  lemma OwesKept(s: State, t: State, i: nat)
    requires Housekeeping(s.worker) && OneOwes(s.chains, s.worker.busy) && s.worker.interval >= 1
    requires Fits(s, t, i) && Continues(s, t, i)
    ensures Housekeeping(t.worker) && OneOwes(t.chains, t.worker.busy)
  {
    hide Linear, References;
    if t.chains[i].called != s.chains[i].called {
      assert i == |s.chains| - 1;
    }
  }

  lemma InvariantKept(s: State, step: Step)
    requires s.worker.interval >= 1 && Invariant(s) && Enabled(s, step)
    ensures Invariant(Apply(s, step)) && Apply(s, step).worker.interval == s.worker.interval
  {
    hide Sum, Linear, Apply, Continues, OneOwes, Housekeeping, References;
    if step.Tick? {
      TickKeeps(s);
    } else {
      var t := Apply(s, step);
      ChainFits(s, step);
      OwesKept(s, t, step.i);
      SumUpdate(s.chains, step.i, t.chains[step.i]);
    }
  }

  lemma NewIsLinear()
    ensures Linear(NewChain) && References(NewChain) == 0
  {
  }

  lemma TickKeeps(s: State)
    requires s.worker.interval >= 1 && Invariant(s)
    ensures Invariant(Apply(s, Tick)) && Apply(s, Tick).worker.interval == s.worker.interval
  {
    hide Sum, Perform, Linear, References;
    SumAppend(s.chains, NewChain);
    NewIsLinear();
  }

  lemma {:induction false} RunKeeps(s: State, steps: seq<Step>, end: State)
    requires s.worker.interval >= 1 && Invariant(s) && Runs(s, steps, end)
    ensures Invariant(end) && end.worker.interval == s.worker.interval
    decreases |steps|
  {
    hide Invariant;
    if steps != [] {
      InvariantKept(s, steps[0]);
      RunKeeps(Apply(s, steps[0]), steps[1..], end);
    }
  }

  /** In every run, with an interval of at least one: the worker waits with a counter in 1..interval or is busy
      with the counter at zero, the assertion of its callback never fails, the continuation of a round is
      called and its argument freed at most once, and both exactly once when the round is done. */
  lemma KeepAliveIsLinear(interval: int, osStatus: Status, steps: seq<Step>, end: State, i: nat)
    requires interval >= 1 && Runs(Started(interval, osStatus), steps, end)
    ensures var w := end.worker; !w.failed && if w.busy then w.counter == 0 else 1 <= w.counter <= interval
    ensures i < |end.chains| ==>
              var c := end.chains[i];
              && c.called <= 1 && c.freed <= 1
              && (c.stage == Done ==> c.called == 1 && c.freed == 1 && c.held == 0)
              && (i < |end.chains| - 1 ==> c.called == 1)
  {
    hide Runs, Linear;
    RunKeeps(Started(interval, osStatus), steps, end);
    if i < |end.chains| {
      LinearCounts(end.chains[i]);
    }
  }

  lemma LinearCounts(c: Chain)
    requires Linear(c)
    ensures c.called <= 1 && c.freed <= 1 && (c.stage == Done ==> c.called == 1 && c.freed == 1 && c.held == 0)
  {
  }

  /** The map is referenced once by its owner and once by whoever else still uses it; when every round is
      done and every worker function has returned, only the owner is left and the worker waits. */
  lemma MapIsBalanced(interval: int, osStatus: Status, steps: seq<Step>, end: State)
    requires interval >= 1 && Runs(Started(interval, osStatus), steps, end)
    ensures end.reference == 1 + Sum(end.chains)
    ensures (forall i :: 0 <= i < |end.chains| ==> end.chains[i].stage == Done && !end.chains[i].own) ==>
              end.reference == 1 && !end.worker.busy
  {
    hide Runs, Linear;
    RunKeeps(Started(interval, osStatus), steps, end);
    if forall i :: 0 <= i < |end.chains| ==> end.chains[i].stage == Done && !end.chains[i].own {
      forall i | 0 <= i < |end.chains| ensures References(end.chains[i]) == 0 && end.chains[i].called == 1 {
        LinearEnds(end.chains[i]);
      }
      NothingHeld(end.chains);
    }
  }

  lemma LinearEnds(c: Chain)
    requires Linear(c) && c.stage == Done
    ensures c.called == 1 && c.freed == 1 && c.held == 0
  {
  }

  lemma {:induction false} NothingHeld(chains: seq<Chain>)
    requires forall i :: 0 <= i < |chains| ==> References(chains[i]) == 0
    ensures Sum(chains) == 0
  {
    if chains != [] {
      NothingHeld(chains[..|chains| - 1]);
    }
  }

  /** How much of a round is left, at most. */
  function Left(c: Chain): nat {
    var own := if c.own then 1 else 0;
    match c.stage
    case Queued => 16
    case Working => 13 + own
    case KeepAliveSent => 10 + own
    case LogSent => 10 + own
    case SyncRunning => 8 + own
    case Ending(put, call, sync) =>
      (if sync then 10 else 2) + (if put.Nothing? then 0 else 2) + (if call then 2 else 0) + own
    case Done => own
  }

  /** A step of the round, with answers that bring it to its end. */
  function NextStep(c: Chain, i: nat): Step {
    match c.stage
    case Queued => Begin(i)
    case Working => Send(i, true)
    case KeepAliveSent => Answered(i, Error)
    case LogSent => LogAnswered(i, false)
    case SyncRunning => SyncDone(i)
    case Ending(_, _, _) => Do(i)
    case Done => PutWorker(i)
  }

  lemma NextStepHelps(s: State, i: nat)
    requires i < |s.chains| && Linear(s.chains[i]) && (s.chains[i].stage != Done || s.chains[i].own)
    ensures var step := NextStep(s.chains[i], i);
            && Enabled(s, step) && !step.Tick? && step.i == i
            && Left(Apply(s, step).chains[i]) < Left(s.chains[i])
  {
  }

  /** No round gets stuck: wherever it stands, steps of its own can bring it to its end, and then the continuation
      has been called once, the argument freed once, and none of its references is left. */
  lemma {:induction false} RoundCanEnd(s: State, i: nat) returns (steps: seq<Step>, end: State)
    requires Invariant(s) && s.worker.interval >= 1 && i < |s.chains|
    ensures Runs(s, steps, end) && Invariant(end) && |end.chains| == |s.chains|
    ensures forall k :: 0 <= k < |steps| ==> !steps[k].Tick? && steps[k].i == i
    ensures forall j :: 0 <= j < |s.chains| && j != i ==> end.chains[j] == s.chains[j]
    ensures var c := end.chains[i]; c.stage == Done && References(c) == 0 && c.called == 1 && c.freed == 1
    decreases Left(s.chains[i])
  {
    hide Linear, Apply, Enabled, Invariant, NextStep, Left;
    assert Linear(s.chains[i]) by { LinearInside(s, i); }
    if s.chains[i].stage == Done && !s.chains[i].own {
      LinearEnds(s.chains[i]);
      return [], s;
    }
    var step := NextStep(s.chains[i], i);
    NextStepHelps(s, i);
    ChainFits(s, step);
    InvariantKept(s, step);
    var rest;
    rest, end := RoundCanEnd(Apply(s, step), i);
    steps := [step] + rest;
    assert steps[1..] == rest;
  }

  lemma LinearInside(s: State, i: nat)
    requires Invariant(s) && i < |s.chains|
    ensures Linear(s.chains[i])
  {
  }

  // ---- one synchronisation at a time ----

  predicate Syncs(c: Chain) {
    c.stage.SyncRunning? || (c.stage.Ending? && c.stage.sync)
  }

  /** A request that is refused although a synchronisation is on its way: the code forgets about the latter. */
  predicate Forgets(s: State, step: Step) {
    s.reqStatus == Syncing && ((step.Send? && !step.accepted) || (step.Answered? && step.answer == Newer(false)))
  }

  /** The status says exactly whether a synchronisation is under way, and there is at most one. */
  ghost predicate OneSync(s: State) {
    && (forall i :: 0 <= i < |s.chains| && Syncs(s.chains[i]) ==> s.reqStatus == Syncing)
    && (forall i, j :: 0 <= i < |s.chains| && 0 <= j < |s.chains| && Syncs(s.chains[i]) && Syncs(s.chains[j]) ==> i == j)
    && (s.reqStatus == Syncing ==> exists i :: 0 <= i < |s.chains| && Syncs(s.chains[i]))
  }

  predicate RunsWithoutForgetting(s: State, steps: seq<Step>, end: State)
    decreases |steps|
  {
    if steps == [] then s == end
    else Enabled(s, steps[0]) && !Forgets(s, steps[0]) && RunsWithoutForgetting(Apply(s, steps[0]), steps[1..], end)
  }

  lemma OneSyncKept(s: State, step: Step)
    requires OneSync(s) && Enabled(s, step) && !Forgets(s, step)
    ensures OneSync(Apply(s, step))
  {
    hide Perform, Next;
    if step.Do? {
      OneSyncByDo(s, step.i);
    } else if step.Answered? {
      OneSyncByAnswer(s, step.i, step.answer);
    } else if step.Tick? {
      OneSyncByTick(s);
    } else {
      OneSyncByOther(s, step);
    }
  }

  lemma OneSyncByTick(s: State)
    requires OneSync(s)
    ensures OneSync(Apply(s, Tick))
  {
    var t := Apply(s, Tick);
    assert t.chains == s.chains || t.chains == s.chains + [NewChain];
    if s.reqStatus == Syncing {
      var k :| 0 <= k < |s.chains| && Syncs(s.chains[k]);
      assert Syncs(t.chains[k]);
    }
  }

  lemma OneSyncByOther(s: State, step: Step)
    requires OneSync(s) && Enabled(s, step) && !Forgets(s, step) && !step.Do? && !step.Answered? && !step.Tick?
    ensures OneSync(Apply(s, step))
  {
    hide Perform, Next;
    var t := Apply(s, step);
    assert t.chains == s.chains[step.i := t.chains[step.i]] && (Syncs(t.chains[step.i]) ==> Syncs(s.chains[step.i]));
    if s.reqStatus == Syncing && !step.SyncDone? {
      var k :| 0 <= k < |s.chains| && Syncs(s.chains[k]);
      assert Syncs(t.chains[k]);
    }
  }

  lemma OneSyncByAnswer(s: State, i: nat, answer: Answer)
    requires OneSync(s) && Enabled(s, Answered(i, answer)) && !Forgets(s, Answered(i, answer))
    ensures OneSync(Apply(s, Answered(i, answer)))
  {
    hide Perform, Next;
    var t := Apply(s, Answered(i, answer));
    assert t.chains == s.chains[i := t.chains[i]];
    assert Syncs(t.chains[i]) ==> s.reqStatus == ReadyToJoin && t.reqStatus == Syncing;
    assert !Syncs(s.chains[i]);
    if s.reqStatus == Syncing {
      var k :| 0 <= k < |s.chains| && Syncs(s.chains[k]);
      assert Syncs(t.chains[k]);
    }
  }

  lemma OneSyncByDo(s: State, i: nat)
    requires OneSync(s) && Enabled(s, Do(i))
    ensures OneSync(Perform(s, i))
  {
    assert Syncs(Next(s.chains[i])) <==> Syncs(s.chains[i]);
    hide Next;
    var t := Perform(s, i);
    if s.reqStatus == Syncing {
      var k :| 0 <= k < |s.chains| && Syncs(s.chains[k]);
      assert Syncs(t.chains[k]);
    }
  }

  lemma {:induction false} RunKeepsOneSync(s: State, steps: seq<Step>, end: State)
    requires s.worker.interval >= 1 && Invariant(s) && OneSync(s) && RunsWithoutForgetting(s, steps, end)
    ensures OneSync(end)
    decreases |steps|
  {
    if steps != [] {
      OneSyncKept(s, steps[0]);
      InvariantKept(s, steps[0]);
      hide Invariant, OneSync;
      RunKeepsOneSync(Apply(s, steps[0]), steps[1..], end);
    }
  }

  /** Unless a request is refused while one is on its way, there is never more than one synchronisation. */
  lemma OneSyncAtATime(interval: int, osStatus: Status, steps: seq<Step>, end: State, i: nat, j: nat)
    requires interval >= 1 && RunsWithoutForgetting(Started(interval, osStatus), steps, end)
    requires i < |end.chains| && j < |end.chains| && Syncs(end.chains[i]) && Syncs(end.chains[j])
    ensures i == j && end.reqStatus == Syncing
  {
    RunKeepsOneSync(Started(interval, osStatus), steps, end);
  }

  /** Two synchronisations can come about, without another such refusal. */
  ghost predicate CanDouble(s: State) {
    exists steps: seq<Step>, end: State, i: nat, j: nat ::
      && RunsWithoutForgetting(s, steps, end)
      && i < j < |end.chains| && Syncs(end.chains[i]) && Syncs(end.chains[j])
  }

  /** And that is the exact condition: after any run without such a refusal, whatever the interval, the next step
      makes a second synchronisation possible exactly if it is one. */
  lemma ForgettingAllowsTwo(interval: int, osStatus: Status, steps: seq<Step>, s: State, step: Step)
    requires interval >= 1 && RunsWithoutForgetting(Started(interval, osStatus), steps, s) && Enabled(s, step)
    ensures CanDouble(Apply(s, step)) <==> Forgets(s, step)
  {
    var start, t := Started(interval, osStatus), Apply(s, step);
    RunKeepsOneSync(start, steps, s);
    RunIsRun(start, steps, s);
    RunKeeps(start, steps, s);
    InvariantKept(s, step);
    if Forgets(s, step) {
      SecondSync(s, step);
    } else {
      OneSyncKept(s, step);
      forall more: seq<Step>, end: State, i: nat, j: nat
        | RunsWithoutForgetting(t, more, end) && i < j < |end.chains| ensures !(Syncs(end.chains[i]) && Syncs(end.chains[j]))
      {
        RunKeepsOneSync(t, more, end);
      }
    }
  }

  lemma {:induction false} RunIsRun(s: State, steps: seq<Step>, end: State)
    requires RunsWithoutForgetting(s, steps, end)
    ensures Runs(s, steps, end)
    decreases |steps|
  {
    if steps != [] {
      RunIsRun(Apply(s, steps[0]), steps[1..], end);
    }
  }

  /** One more step in front of a run that leads to two synchronisations. */
  lemma DoubleBefore(s: State, step: Step)
    requires Enabled(s, step) && !Forgets(s, step) && CanDouble(Apply(s, step))
    ensures CanDouble(s)
  {
    hide Enabled, Apply, Forgets;
    var steps, end, i: nat, j: nat :|
      RunsWithoutForgetting(Apply(s, step), steps, end) && i < j < |end.chains| && Syncs(end.chains[i]) && Syncs(end.chains[j]);
    assert ([step] + steps)[1..] == steps;
    assert RunsWithoutForgetting(s, [step] + steps, end);
  }

  /** The last round runs to its continuation, and the worker waits with a full counter. */
  lemma SecondSync(s: State, step: Step)
    requires Invariant(s) && s.worker.interval >= 1 && OneSync(s) && Enabled(s, step) && Forgets(s, step)
    ensures CanDouble(Apply(s, step))
  {
    var a :| 0 <= a < |s.chains| && Syncs(s.chains[a]);
    var i, t := step.i, Apply(s, step);
    assert Linear(s.chains[i]) && Linear(s.chains[a]);
    assert s.worker.busy && s.worker.counter == 0 && i == |s.chains| - 1 && a < i;
    var t1 := Apply(t, Do(i));
    var t2 := Apply(t1, Do(i));
    assert t2.worker == Worker(s.worker.interval, false, s.worker.interval, false) && t2.reqStatus == ReadyToJoin;
    assert Syncs(t2.chains[a]);
    hide Invariant, OneSync, Apply;
    TicksToSecond(t2, a);
    hide CanDouble;
    assert Enabled(t1, Do(i)) && !Forgets(t1, Do(i)) && !Forgets(t, Do(i));
    DoubleBefore(t1, Do(i));
    DoubleBefore(t, Do(i));
  }

  lemma {:induction false} TicksToSecond(s: State, a: nat)
    requires !s.worker.busy && s.worker.counter >= 1 && s.reqStatus == ReadyToJoin
    requires a < |s.chains| && Syncs(s.chains[a])
    ensures CanDouble(s)
    decreases s.worker.counter
  {
    var t := Apply(s, Tick);
    if s.worker.counter == 1 {
      JoinsBeside(t, a);
    } else {
      TicksToSecond(t, a);
    }
    hide CanDouble, Apply;
    DoubleBefore(s, Tick);
  }

  /** A round just begun joins while another synchronisation is under way. */
  lemma JoinsBeside(s: State, a: nat)
    requires |s.chains| > 0 && s.chains[|s.chains| - 1] == NewChain && s.reqStatus == ReadyToJoin
    requires a < |s.chains| - 1 && Syncs(s.chains[a])
    ensures CanDouble(s)
  {
    var n: nat := |s.chains| - 1;
    var s1 := Apply(s, Begin(n));
    var s2 := Apply(s1, Send(n, true));
    var s3 := Apply(s2, Answered(n, Same));
    assert Syncs(s3.chains[a]) && Syncs(s3.chains[n]);
    assert RunsWithoutForgetting(s3, [], s3);
    assert CanDouble(s3);
    hide CanDouble;
    DoubleBefore(s2, Answered(n, Same));
    DoubleBefore(s1, Send(n, true));
    DoubleBefore(s, Begin(n));
  }

  lemma {:induction false} RunsMore(s: State, steps: seq<Step>, mid: State, step: Step)
    requires Runs(s, steps, mid) && Enabled(mid, step)
    ensures Runs(s, steps + [step], Apply(mid, step))
    decreases |steps|
  {
    hide Enabled, Apply;
    var all := steps + [step];
    if steps == [] {
      assert all[1..] == [] && all[0] == step;
    } else {
      RunsMore(Apply(s, steps[0]), steps[1..], mid, step);
      assert all[1..] == steps[1..] + [step] && all[0] == steps[0];
    }
  }

  /** A round that ends in a synchronisation, from a worker about to fire. */
  lemma JoiningRound(s: State, before: seq<Step>, now: State) returns (steps: seq<Step>, end: State)
    requires Runs(s, before, now) && now.worker == Worker(1, false, 1, false) && now.reqStatus == ReadyToJoin
    ensures Runs(s, steps, end) && end.worker == now.worker && end.reqStatus == Syncing
    ensures end.chains == now.chains + [Chain(SyncRunning, true, 1, 1, 0)]
  {
    hide Runs;
    var n, rest := |now.chains|, now.chains;
    RunsMore(s, before, now, Tick);
    var s1 := Apply(now, Tick);
    RunsMore(s, before + [Tick], s1, Begin(n));
    var s2 := Apply(s1, Begin(n));
    steps := before + [Tick] + [Begin(n)];
    RunsMore(s, steps, s2, Send(n, true));
    var s3 := Apply(s2, Send(n, true));
    steps := steps + [Send(n, true)];
    RunsMore(s, steps, s3, Answered(n, Same));
    var s4 := Apply(s3, Answered(n, Same));
    steps := steps + [Answered(n, Same)];
    RunsMore(s, steps, s4, Do(n));
    var s5 := Apply(s4, Do(n));
    steps := steps + [Do(n)];
    RunsMore(s, steps, s5, Do(n));
    end := Apply(s5, Do(n));
    steps := steps + [Do(n)];
  }

  /** A round whose request is refused, from a worker about to fire. */
  lemma RefusedRound(s: State, before: seq<Step>, now: State) returns (steps: seq<Step>, end: State)
    requires Runs(s, before, now) && now.worker == Worker(1, false, 1, false)
    ensures Runs(s, steps, end) && end.worker == now.worker && end.reqStatus == ReadyToJoin
    ensures end.chains == now.chains + [Chain(Done, false, 0, 1, 1)]
  {
    hide Runs;
    var n := |now.chains|;
    RunsMore(s, before, now, Tick);
    var s1 := Apply(now, Tick);
    RunsMore(s, before + [Tick], s1, Begin(n));
    var s2 := Apply(s1, Begin(n));
    steps := before + [Tick] + [Begin(n)];
    RunsMore(s, steps, s2, Send(n, false));
    var s3 := Apply(s2, Send(n, false));
    steps := steps + [Send(n, false)];
    RunsMore(s, steps, s3, Do(n));
    var s4 := Apply(s3, Do(n));
    steps := steps + [Do(n)];
    RunsMore(s, steps, s4, Do(n));
    var s5 := Apply(s4, Do(n));
    steps := steps + [Do(n)];
    RunsMore(s, steps, s5, Do(n));
    end := Apply(s5, Do(n));
    steps := steps + [Do(n)];
  }

  /** With such a refusal, a second synchronisation can start beside the first. */
  lemma TwoSyncs(osStatus: Status)
    ensures exists steps: seq<Step>, end: State ::
              && Runs(Started(1, osStatus), steps, end) && |end.chains| == 3
              && end.chains[0].stage == SyncRunning && end.chains[2].stage == SyncRunning
  {
    var start := Started(1, osStatus);
    var steps1, s1 := JoiningRound(start, [], start);
    hide Runs;
    var steps2, s2 := RefusedRound(start, steps1, s1);
    var steps3, s3 := JoiningRound(start, steps2, s2);
    assert Runs(start, steps3, s3) && |s3.chains| == 3;
    assert s3.chains[0] == s2.chains[0] == s1.chains[0];
  }
}
