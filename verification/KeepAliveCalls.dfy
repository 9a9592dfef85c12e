/** The functions of HouseKeeping.c and of the keep-alive chain themselves (ClusterMapObjectService.c), each
    executed without interference: what they do is what the steps of module KeepAlive say. */
module KeepAliveCalls {
  import opened KeepAlive

  class HousekeepingWorker {
    const interval: int
    var busy: bool
    var counter: int
    var jobs: nat    // insertions of its job into the pool

    ghost function State(): Worker
      reads this
    {
      Worker(interval, busy, counter, false)
    }

    constructor (interval: int)
      ensures this.interval == interval && State() == NewWorker(interval) && jobs == 0
    {
      this.interval, busy, counter, jobs := interval, false, interval, 0;
    }

    /** The body of the housekeeping loop for one worker. */
    method Look()
      modifies this
      ensures State() == Ticked(old(State()))
      ensures if old(busy) then busy && counter == old(counter) else counter == old(counter) - 1 && busy == (counter == 0)
      ensures jobs == old(jobs) + if busy && !old(busy) then 1 else 0
    {
      if busy {
        return;
      }
      counter := counter - 1;
      if counter == 0 {
        busy := true;
        jobs := jobs + 1;
      }
    }

    /** houseKeepingWorkerDoCallback, under its assertion. */
    method Resume()
      requires busy && counter == 0
      modifies `busy, `counter
      ensures State() == Resumed(old(State())) && !busy && counter == interval
    {
      counter := interval;
      busy := false;
    }
  }

  class Housekeeping {
    var workers: seq<HousekeepingWorker>

    ghost predicate Distinct()
      reads this
    {
      forall i, j :: 0 <= i < j < |workers| ==> workers[i] != workers[j]
    }

    constructor ()
      ensures workers == []
    {
      workers := [];
    }

    method AddWorker(interval: int) returns (w: HousekeepingWorker)
      requires Distinct()
      modifies this
      ensures Distinct() && fresh(w) && w.State() == NewWorker(interval) && workers == [w] + old(workers)
    {
      w := new HousekeepingWorker(interval);
      workers := [w] + workers;
    }

    /** One turn of the housekeeping thread: every worker in the list is looked at once. */
    method Tick()
      requires Distinct()
      modifies workers
      ensures forall i :: 0 <= i < |workers| ==> workers[i].State() == Ticked(old(workers[i].State()))
    {
      for i := 0 to |workers|
        invariant forall k :: 0 <= k < i ==> workers[k].State() == Ticked(old(workers[k].State()))
        invariant forall k :: i <= k < |workers| ==> workers[k].State() == old(workers[k].State())
      {
        workers[i].Look();
      }
    }
  }

  /** Number of things a callback still has to do. */
  function TasksLeft(stage: Stage): nat {
    if !stage.Ending? then 0
    else 1 + (if stage.put.Nothing? then 0 else 1) + if stage.call then 1 else 0
  }

  /** The callback of a chain run to its end. */
  function Finished(s: State, i: nat): State
    requires i < |s.chains|
    decreases TasksLeft(s.chains[i].stage)
  {
    if s.chains[i].stage.Ending? then Finished(Perform(s, i), i) else s
  }

  class ObjectServiceKeeper {
    var worker: HousekeepingWorker
    var reqStatus: Status
    var osStatus: Status
    var reference: int
    ghost var chains: seq<Chain>

    ghost function Abstract(): State
      reads this, worker
    {
      State(worker.State(), reqStatus, osStatus, reference, chains)
    }

    constructor (interval: int, osStatus: Status)
      ensures Abstract() == Started(interval, osStatus) && fresh(worker)
    {
      worker := new HousekeepingWorker(interval);
      reqStatus, this.osStatus, reference, chains := ReadyToJoin, osStatus, 1, [];
    }

    /** The housekeeping worker: clusterMapKeepAliveHouseKeepingWorker. */
    method Work(accepted: bool, ghost i: nat)
      requires worker.busy && worker.counter == 0 && i < |chains| && chains[i].stage == Queued && chains[i].held == 0
      modifies this`reqStatus, this`osStatus, this`reference, this`chains, worker
      ensures worker == old(worker)
      ensures var sent := Apply(Apply(old(Abstract()), Begin(i)), Send(i, accepted));
              Abstract() == if accepted then Apply(sent, PutWorker(i)) else Finished(sent, i)
      ensures if accepted then osStatus == old(osStatus) && reqStatus == old(reqStatus) && worker.busy
              else osStatus == Offline && reqStatus == ReadyToJoin && !worker.busy && worker.counter == worker.interval
      ensures reference == old(reference)
    {
      ghost var before := Abstract();
      reference := reference + 1;
      if !accepted {
        osStatus := Offline;
        reference := reference - 1;
        reqStatus := ReadyToJoin;
        worker.Resume();
        chains := chains[i := Chain(Done, false, 0, chains[i].called + 1, chains[i].freed + 1)];
        GivesUp(before, i);
        return;
      }
      reference := reference - 1;
      chains := chains[i := Chain(KeepAliveSent, false, 0, chains[i].called, chains[i].freed)];
    }

    /** clusterMapOSKeepAliveCallback; `answer` also says whether the request for the change log is accepted. */
    method KeepAliveCallback(answer: Answer, ghost i: nat)
      requires worker.busy && worker.counter == 0 && i < |chains| && chains[i].stage == KeepAliveSent && chains[i].held == 0
      modifies this`reqStatus, this`osStatus, this`reference, this`chains, worker
      ensures worker == old(worker)
      ensures Abstract() == Finished(Apply(old(Abstract()), Answered(i, answer)), i)
      ensures if answer == Newer(false) || (answer.Error? && old(reqStatus) != Syncing) then osStatus == Offline && reqStatus == ReadyToJoin
              else if answer == Same && old(reqStatus) == ReadyToJoin then osStatus == Syncing && reqStatus == Syncing
              else osStatus == old(osStatus) && reqStatus == old(reqStatus)
      ensures worker.busy <==> answer == Newer(true)
      ensures reference == old(reference) + if answer == Newer(true) || (answer == Same && old(reqStatus) == ReadyToJoin) then 1 else 0
    {
      ghost var before, c := Abstract(), chains[i];
      reference := reference + 1;
      if answer.Error? {
        if reqStatus != Syncing {
          osStatus := Offline;
          reqStatus := ReadyToJoin;
        }
      } else if answer.Newer? {
        if !answer.accepted {
          osStatus := Offline;
          reference := reference - 1;
          reqStatus := ReadyToJoin;
          worker.Resume();
          chains := chains[i := Chain(Done, c.own, 0, c.called + 1, c.freed + 1)];
          AnswerLeaves(before, i, answer);
          return;
        }
        chains := chains[i := Chain(LogSent, c.own, 1, c.called, c.freed)];
        return;
      } else if reqStatus == ReadyToJoin {
        reqStatus := Syncing;
        osStatus := Syncing;
        worker.Resume();
        chains := chains[i := Chain(SyncRunning, c.own, 1, c.called + 1, c.freed)];
        AnswerJoins(before, i);
        return;
      }
      reference := reference - 1;
      worker.Resume();
      chains := chains[i := Chain(Done, c.own, 0, c.called + 1, c.freed + 1)];
      AnswerLeaves(before, i, answer);
    }

    /** clusterMapGetObjectServiceMapChangeLogCallback. */
    method ChangeLogCallback(error: bool, ghost i: nat)
      requires worker.busy && worker.counter == 0 && i < |chains| && chains[i].stage == LogSent && chains[i].held == 1
      modifies this`reqStatus, this`osStatus, this`reference, this`chains, worker
      ensures worker == old(worker)
      ensures Abstract() == Finished(Apply(old(Abstract()), LogAnswered(i, error)), i)
      ensures if error && old(reqStatus) != Syncing then osStatus == Offline && reqStatus == ReadyToJoin
              else osStatus == old(osStatus) && reqStatus == old(reqStatus)
      ensures !worker.busy && reference == old(reference) - 1
    {
      ghost var before, c := Abstract(), chains[i];
      if error {
        if reqStatus != Syncing {
          osStatus := Offline;
          reqStatus := ReadyToJoin;
        }
      }
      reference := reference - 1;
      worker.Resume();
      chains := chains[i := Chain(Done, c.own, 0, c.called + 1, c.freed + 1)];
      Leaves(Apply(before, LogAnswered(i, error)), i);
    }

    /** clusterMapSyncMasterNodeCallback: the continuation has been called before. */
    method SyncCallback(ghost i: nat)
      requires i < |chains| && chains[i].stage == SyncRunning && chains[i].held == 1
      modifies this`reqStatus, this`osStatus, this`reference, this`chains
      ensures worker == old(worker)
      ensures Abstract() == Finished(Apply(old(Abstract()), SyncDone(i)), i)
      ensures osStatus == Online && reqStatus == Online && reference == old(reference) - 1
    {
      ghost var before, c := Abstract(), chains[i];
      osStatus := Online;
      reqStatus := Online;
      reference := reference - 1;
      chains := chains[i := Chain(Done, c.own, 0, c.called, c.freed + 1)];
      ghost var s0 := Apply(before, SyncDone(i));
      assert Finished(s0, i) == Finished(Perform(s0, i), i) == Finished(Perform(Perform(s0, i), i), i);
    }
  }

  /** The common end of the callbacks: put the reference, continue, free. */
  lemma Leaves(s: State, i: nat)
    requires i < |s.chains| && s.chains[i].stage == Ending(HeldReference, true, false) && s.chains[i].held == 1
    ensures var c := s.chains[i];
            Finished(s, i) == s.(worker := Resumed(s.worker), reference := s.reference - 1,
                                 chains := s.chains[i := Chain(Done, c.own, 0, c.called + 1, c.freed + 1)])
  {
    var s1 := Perform(s, i);
    var s2 := Perform(s1, i);
    assert Finished(Perform(s2, i), i) == Perform(s2, i);
    assert Finished(s, i) == Finished(s1, i) == Finished(s2, i);
  }

  lemma AnswerLeaves(s: State, i: nat, answer: Answer)
    requires Enabled(s, Answered(i, answer)) && s.chains[i].held == 0
    requires answer == Newer(false) || answer.Error? || (answer.Same? && s.reqStatus != ReadyToJoin)
    ensures var c, t := s.chains[i], if answer.Error? then Unreachable(s) else if answer.Same? then s else s.(osStatus := Offline, reqStatus := ReadyToJoin);
            Finished(Apply(s, Answered(i, answer)), i) ==
            t.(worker := Resumed(s.worker), chains := s.chains[i := Chain(Done, c.own, 0, c.called + 1, c.freed + 1)])
  {
    Leaves(Apply(s, Answered(i, answer)), i);
  }

  lemma AnswerJoins(s: State, i: nat)
    requires Enabled(s, Answered(i, Same)) && s.chains[i].held == 0 && s.reqStatus == ReadyToJoin
    ensures var c := s.chains[i];
            Finished(Apply(s, Answered(i, Same)), i) ==
            State(Resumed(s.worker), Syncing, Syncing, s.reference + 1,
                  s.chains[i := Chain(SyncRunning, c.own, 1, c.called + 1, c.freed)])
  {
    var s0 := Apply(s, Answered(i, Same));
    var s1 := Perform(s0, i);
    var s2 := Perform(s1, i);
    assert Finished(s2, i) == s2;
    assert Finished(s0, i) == Finished(s1, i) == Finished(s2, i);
  }

  lemma GivesUp(s: State, i: nat)
    requires i < |s.chains| && s.chains[i].stage == Queued && s.chains[i].held == 0
    ensures var c := s.chains[i];
            Finished(Apply(Apply(s, Begin(i)), Send(i, false)), i) ==
            State(Resumed(s.worker), ReadyToJoin, Offline, s.reference,
                  s.chains[i := Chain(Done, false, 0, c.called + 1, c.freed + 1)])
  {
    var s0 := Apply(Apply(s, Begin(i)), Send(i, false));
    var s1 := Perform(s0, i);
    var s2 := Perform(s1, i);
    assert Finished(Perform(s2, i), i) == Perform(s2, i);
    assert Finished(s0, i) == Finished(s1, i) == Finished(s2, i);
  }
}
