/** What the keep-alive chain says about its object service: when the service is online, and that it can always
    come online again (libs/cluster/ClusterMapObjectService.c). */
module KeepAliveStatus {
  import opened KeepAlive

  /** A request that is refused, or an answer with an error. */
  predicate GivesUp(step: Step) {
    (step.Send? && !step.accepted) || (step.Answered? && step.answer in {Newer(false), Error}) || (step.LogAnswered? && step.error)
  }

  /** An error, unlike a refusal, does not disturb a synchronisation. */
  predicate Tolerated(step: Step) {
    (step.Answered? && step.answer == Error) || step.LogAnswered?
  }

  /** What each step does to the two statuses: a finished synchronisation brings the service online, a round that
      joins starts synchronising, a round that gives up leaves it offline, and nothing else changes them. */
  lemma StatusMoves(s: State, step: Step)
    requires Enabled(s, step)
    ensures var t := Apply(s, step);
            if step.SyncDone? then t.osStatus == Online && t.reqStatus == Online
            else if step.Answered? && step.answer == Same && s.reqStatus == ReadyToJoin then
              t.osStatus == Syncing && t.reqStatus == Syncing
            else if GivesUp(step) && !(Tolerated(step) && s.reqStatus == Syncing) then
              t.osStatus == Offline && t.reqStatus == ReadyToJoin
            else t.osStatus == s.osStatus && t.reqStatus == s.reqStatus
  {
    hide Next, Ticked, Resumed;
  }

  /** The two statuses agree; a service that has to join is offline, or what it was at first. */
  predicate Agree(s: State, first: Status) {
    match s.reqStatus
    case Online => s.osStatus == Online
    case Syncing => s.osStatus == Syncing
    case ReadyToJoin => s.osStatus == Offline || s.osStatus == first
    case Offline => false
  }

  /** While synchronising is reported, somebody synchronises. */
  ghost predicate Underway(s: State) {
    s.reqStatus == Syncing ==> exists i :: 0 <= i < |s.chains| && Syncs(s.chains[i])
  }

  lemma UnderwayKept(s: State, step: Step)
    requires Underway(s) && Enabled(s, step)
    ensures Underway(Apply(s, step))
  {
    hide Perform, Next, Ticked;
    var t := Apply(s, step);
    if t.reqStatus == Syncing {
      StatusMoves(s, step);
      if step.Answered? && step.answer == Same && s.reqStatus == ReadyToJoin {
        assert Syncs(t.chains[step.i]);
      } else {
        var k :| 0 <= k < |s.chains| && Syncs(s.chains[k]);
        if step.Do? && step.i == k {
          SyncsOn(s, k);
        }
        assert Syncs(t.chains[k]) by { OthersStay(s, step, k); }
      }
    }
  }

  lemma SyncsOn(s: State, i: nat)
    requires Enabled(s, Do(i)) && Syncs(s.chains[i])
    ensures Syncs(Apply(s, Do(i)).chains[i])
  {
  }

  lemma OthersStay(s: State, step: Step, k: nat)
    requires Enabled(s, step) && k < |s.chains| && Syncs(s.chains[k]) && !step.SyncDone?
    requires step.Do? && step.i == k ==> Syncs(Apply(s, step).chains[k])
    ensures k < |Apply(s, step).chains| && Syncs(Apply(s, step).chains[k])
  {
    hide Next, Ticked;
  }

  lemma {:induction false} RunAgrees(s: State, first: Status, steps: seq<Step>, end: State)
    requires Agree(s, first) && Underway(s) && Runs(s, steps, end)
    ensures Agree(end, first) && Underway(end)
    decreases |steps|
  {
    hide Apply, Enabled, Underway;
    if steps != [] {
      StatusMoves(s, steps[0]);
      UnderwayKept(s, steps[0]);
      RunAgrees(Apply(s, steps[0]), first, steps[1..], end);
    }
  }

  /** In every run: what is reported to the monitor as online or synchronising is what the map says; and while
      synchronising is reported, a synchronisation is under way. */
  lemma StatusesAgree(interval: int, first: Status, steps: seq<Step>, end: State)
    requires Runs(Started(interval, first), steps, end)
    ensures end.reqStatus == Online || end.reqStatus == Syncing ==> end.osStatus == end.reqStatus
    ensures end.reqStatus == ReadyToJoin ==> end.osStatus == Offline || end.osStatus == first
    ensures end.reqStatus != Offline
    ensures end.reqStatus == Syncing ==> exists i :: 0 <= i < |end.chains| && Syncs(end.chains[i])
  {
    RunAgrees(Started(interval, first), first, steps, end);
  }

  // ---- exactly when the service is online ----

  predicate NeverGivesUp(steps: seq<Step>) {
    forall j :: 0 <= j < |steps| ==> !GivesUp(steps[j])
  }

  /** The last synchronisation to finish, if any, with nothing given up since. */
  predicate FinishedSince(steps: seq<Step>) {
    exists k :: 0 <= k < |steps| && steps[k].SyncDone? && NeverGivesUp(steps[k + 1..])
  }

  lemma FinishedFirst(steps: seq<Step>)
    requires steps != []
    ensures FinishedSince(steps) <==> FinishedSince(steps[1..]) || (steps[0].SyncDone? && NeverGivesUp(steps[1..]))
    ensures NeverGivesUp(steps) <==> !GivesUp(steps[0]) && NeverGivesUp(steps[1..])
  {
    var rest := steps[1..];
    if k: nat :| k < |steps| && steps[k].SyncDone? && NeverGivesUp(steps[k + 1..]) {
      if k > 0 {
        assert rest[k - 1] == steps[k] && rest[k..] == steps[k + 1..];
      }
    }
    if k: nat :| k < |rest| && rest[k].SyncDone? && NeverGivesUp(rest[k + 1..]) {
      assert rest[k] == steps[k + 1] && rest[k + 1..] == steps[k + 2..];
    }
    if NeverGivesUp(steps) {
      forall j | 0 <= j < |rest| ensures !GivesUp(rest[j]) {
        assert rest[j] == steps[j + 1];
      }
    }
    if !GivesUp(steps[0]) && NeverGivesUp(rest) {
      forall j | 0 <= j < |steps| ensures !GivesUp(steps[j]) {
        assert j > 0 ==> steps[j] == rest[j - 1];
      }
    }
  }

  lemma {:induction false} OnlineFrom(s: State, first: Status, steps: seq<Step>, end: State)
    requires Agree(s, first) && Underway(s) && first != Online && Runs(s, steps, end)
    ensures end.reqStatus == Online <==> FinishedSince(steps) || (s.reqStatus == Online && NeverGivesUp(steps))
    decreases |steps|
  {
    hide Apply, Enabled, Underway, FinishedSince, NeverGivesUp;
    if steps == [] {
      assert NeverGivesUp(steps) && !FinishedSince(steps) by { NothingYet(); }
    } else {
      FinishedFirst(steps);
      StatusMoves(s, steps[0]);
      UnderwayKept(s, steps[0]);
      OnlineFrom(Apply(s, steps[0]), first, steps[1..], end);
    }
  }

  lemma NothingYet()
    ensures NeverGivesUp([]) && !FinishedSince([])
  {
  }

  /** In every run of a service that was not online at first: it is online exactly if a synchronisation has finished
      and no request was refused and no error came since. */
  lemma OnlineIsEarned(interval: int, first: Status, steps: seq<Step>, end: State)
    requires Runs(Started(interval, first), steps, end) && first != Online
    ensures end.osStatus == Online <==> FinishedSince(steps)
  {
    var start := Started(interval, first);
    OnlineFrom(start, first, steps, end);
    RunAgrees(start, first, steps, end);
  }

  // ---- the housekeeping interval ----

  /** Left alone, the worker fires after exactly as many ticks as its counter says, and then waits for its round. */
  lemma {:induction false} FiresAfter(s: State, steps: seq<Step>, end: State)
    requires Runs(s, steps, end) && forall k :: 0 <= k < |steps| ==> steps[k] == Tick
    requires !s.worker.busy && s.worker.counter >= 1
    ensures |steps| < s.worker.counter ==> end == s.(worker := s.worker.(counter := s.worker.counter - |steps|))
    ensures |steps| >= s.worker.counter ==>
              end == s.(worker := s.worker.(busy := true, counter := 0), chains := s.chains + [NewChain])
    decreases |steps|
  {
    if steps != [] {
      var t := Apply(s, Tick);
      assert forall k :: 0 <= k < |steps| - 1 ==> steps[1..][k] == steps[k + 1];
      if t.worker.busy {
        BusyWaits(t, steps[1..], end);
      } else {
        FiresAfter(t, steps[1..], end);
      }
    }
  }

  lemma {:induction false} BusyWaits(s: State, steps: seq<Step>, end: State)
    requires Runs(s, steps, end) && (forall k :: 0 <= k < |steps| ==> steps[k] == Tick) && s.worker.busy
    ensures end == s
    decreases |steps|
  {
    if steps != [] {
      assert forall k :: 0 <= k < |steps| - 1 ==> steps[1..][k] == steps[k + 1];
      BusyWaits(Apply(s, Tick), steps[1..], end);
    }
  }

  // ---- it can always come online ----

  ghost predicate CanComeOnline(s: State) {
    exists steps: seq<Step>, end: State :: Runs(s, steps, end) && end.osStatus == Online && end.reqStatus == Online
  }

  lemma Before(s: State, step: Step)
    requires Enabled(s, step) && CanComeOnline(Apply(s, step))
    ensures CanComeOnline(s)
  {
    hide Enabled, Apply;
    var steps, end :| Runs(Apply(s, step), steps, end) && end.osStatus == Online && end.reqStatus == Online;
    assert ([step] + steps)[1..] == steps;
    assert Runs(s, [step] + steps, end);
  }

  lemma {:induction false} BeforeAll(s: State, steps: seq<Step>, mid: State)
    requires Runs(s, steps, mid) && CanComeOnline(mid)
    ensures CanComeOnline(s)
    decreases |steps|
  {
    hide CanComeOnline, Enabled, Apply;
    if steps != [] {
      BeforeAll(Apply(s, steps[0]), steps[1..], mid);
      Before(s, steps[0]);
    }
  }

  lemma SyncFinishes(s: State, i: nat)
    requires i < |s.chains| && s.chains[i].stage.SyncRunning?
    ensures CanComeOnline(s)
  {
    StatusMoves(s, SyncDone(i));
    hide Apply;
    var end := Apply(s, SyncDone(i));
    assert Runs(end, [], end);
    Before(s, SyncDone(i));
  }

  /** Whoever synchronises, or is about to, can finish. */
  lemma {:induction false} SyncCanFinish(s: State, i: nat)
    requires i < |s.chains| && Syncs(s.chains[i])
    ensures CanComeOnline(s)
    decreases Left(s.chains[i])
  {
    if s.chains[i].stage.SyncRunning? {
      SyncFinishes(s, i);
    } else {
      var t := Apply(s, Do(i));
      assert Syncs(t.chains[i]) && Left(t.chains[i]) < Left(s.chains[i]);
      hide CanComeOnline, Apply;
      SyncCanFinish(t, i);
      Before(s, Do(i));
    }
  }

  /** A waiting worker starts a round that joins. */
  lemma {:induction false} WaitingCanJoin(s: State)
    requires !s.worker.busy && s.worker.counter >= 1 && s.reqStatus == ReadyToJoin
    ensures CanComeOnline(s)
    decreases s.worker.counter
  {
    var t := Apply(s, Tick);
    hide CanComeOnline;
    if s.worker.counter == 1 {
      NewRoundJoins(t);
    } else {
      WaitingCanJoin(t);
    }
    hide Apply;
    Before(s, Tick);
  }

  lemma NewRoundJoins(s: State)
    requires |s.chains| > 0 && s.chains[|s.chains| - 1] == NewChain && s.reqStatus == ReadyToJoin
    ensures CanComeOnline(s)
  {
    var n: nat := |s.chains| - 1;
    var s1 := Apply(s, Begin(n));
    var s2 := Apply(s1, Send(n, true));
    var s3 := Apply(s2, Answered(n, Same));
    assert Syncs(s3.chains[n]);
    hide CanComeOnline;
    SyncCanFinish(s3, n);
    Before(s2, Answered(n, Same));
    Before(s1, Send(n, true));
    Before(s, Begin(n));
  }

  /** Wherever the chain stands, and whatever was refused before, some run goes on to bring the service online. */
  lemma OnlineStaysPossible(interval: int, first: Status, steps: seq<Step>, s: State)
    requires interval >= 1 && Runs(Started(interval, first), steps, s)
    ensures CanComeOnline(s)
  {
    var start := Started(interval, first);
    RunKeeps(start, steps, s);
    RunAgrees(start, first, steps, s);
    hide CanComeOnline, Runs;
    if s.worker.busy {
      var last: nat := |s.chains| - 1;
      var more, t := RoundCanEnd(s, last);
      RunAgrees(s, first, more, t);
      assert !t.worker.busy;
      assert t.worker.interval == interval by { RunKeeps(s, more, t); }
      IdleCanComeOnline(t, first);
      BeforeAll(s, more, t);
    } else {
      IdleCanComeOnline(s, first);
    }
  }

  lemma IdleCanComeOnline(s: State, first: Status)
    requires Invariant(s) && s.worker.interval >= 1 && !s.worker.busy && Agree(s, first) && Underway(s)
    ensures CanComeOnline(s)
  {
    if s.reqStatus == Online {
      assert Runs(s, [], s);
    } else if s.reqStatus == Syncing {
      var i :| 0 <= i < |s.chains| && Syncs(s.chains[i]);
      SyncCanFinish(s, i);
    } else {
      WaitingCanJoin(s);
    }
  }
}
