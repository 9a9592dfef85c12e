/** The table that matches responses to requests (corecode/client/Client.c).  Callers, the read callback, the
    write callback, the workers and the close handler interleave freely; one locked section, one callback or
    one atomic operation is a step. */
module ClientTable {
  import opened Arithmetic
  import opened Bytes

  const SLOTS := 128
  const SEQUENCE_WRAP := 0x1_0000_0000
  const FIRST_SEQUENCE := 1023

  /** The sequence number the k-th call takes, whether or not its request is sent in the end. */
  function Sequence(k: nat): nat {
    (FIRST_SEQUENCE + k) % SEQUENCE_WRAP
  }

  function SlotOf(sequence: nat): (h: nat)
    ensures h < SLOTS
  {
    sequence % SLOTS
  }

  /** Numbers begin with 1023, each is one more than the one before, modulo 2^32. */
  lemma Numbering(k: nat)
    ensures Sequence(0) == 1023 && Sequence(k) < 0x1_0000_0000
    ensures Sequence(k + 1) == if Sequence(k) == 0xFFFF_FFFF then 0 else Sequence(k) + 1
  {
    var n := FIRST_SEQUENCE + k;
    DivMod(n, SEQUENCE_WRAP);
    if n % SEQUENCE_WRAP + 1 < SEQUENCE_WRAP {
      DivUnique(n + 1, SEQUENCE_WRAP, n / SEQUENCE_WRAP, n % SEQUENCE_WRAP + 1);
    } else {
      OneMoreTime(n / SEQUENCE_WRAP, SEQUENCE_WRAP);
      DivUnique(n + 1, SEQUENCE_WRAP, n / SEQUENCE_WRAP + 1, 0);
    }
  }

  /** How far a call of sendRequest has come, and after it the write of its request. */
  datatype Write =
    | Fresh        // numbered, not in the table yet
    | Listed       // in the table, not counted yet
    | Counted      // counted, not handed to the connection yet
    | Refused      // not taken by the connection
    | Withdrawing  // counted as done, not taken off the table yet
    | Withdrawn    // taken off, not freed yet
    | Over         // the call has returned false
    | Pending      // taken by the connection; the call returns true
    | Unlinked     // the write has failed, and the request is off the table
    | Told         // and has been called back
    | Uncounted    // the write callback has only to count
    | Finished

  /** Out of the table, in a slot, in the hands of the read callback, answered, or given up. */
  datatype Place = Outside | Waiting | Taken | Answered | GivenUp

  /** Progress of an answer: queued for a worker, called back, read buffer released, send_arg released. */
  datatype Answer = Queued | Running | Unbuffered | Released

  /** One numbered call with its send_arg. */
  datatype Request = Request(
    place: Place, answer: Answer, write: Write,
    seen: bool,    // bytes of its response have arrived
    ref: int,
    called: nat,   // times its callback has been run
    freed: nat)    // times its send_arg has been freed

  const NewRequest := Request(Outside, Queued, Fresh, false, 2, 0, 0)

  /** The connection is closed; the client forgets it; the close handler frees the connection's context and
      goes through the slots. */
  datatype Closing = Open | Closed | Forgotten | Sweeping(h: nat) | Returned

  /** `wild` records that a send_arg or the context was touched after it had been freed. */
  datatype Client = Client(
    entered: nat,  // calls that have seen the connection and have no number yet
    requests: seq<Request>, slots: seq<seq<nat>>, taken: Option<nat>, closing: Closing, wild: bool)

  const NewClient := Client(0, [], seq(SLOTS, _ => []), None, Open, false)

  /** What is done to one request. */
  datatype Act =
    // by the call of sendRequest
    | FailEncoding | Register | Count | Submit | CountRefused | Withdraw | FreeRefused
    // by the write callback
    | FinishWrite | FailWrite | TellFailed | FreeFailed | CountWrite
    // by a worker
    | Call | LetGo | Release
    // by the read callback
    | Take | PutBack | Hand
    // by the close handler
    | GiveUp

  datatype Step =
    | Enter
    | Number
    | On(k: nat, act: Act)
    | Match(sequence: nat)
    | Incomplete
    | Respond
    | Close
    | Forget
    | Wait
    | Sweep
    | NextSlot
    | Return

  function First(slot: seq<nat>, sequence: nat): (k: Option<nat>)
    ensures k.Some? ==> k.value in slot && Sequence(k.value) == sequence
    ensures k.None? ==> forall j :: j in slot ==> Sequence(j) != sequence
  {
    if slot == [] then None
    else if Sequence(slot[0]) == sequence then Some(slot[0])
    else First(slot[1..], sequence)
  }

  /** The list without an element that stands in it. */
  function Without(slot: seq<nat>, k: nat): seq<nat> {
    if slot == [] then []
    else if slot[0] == k then slot[1..]
    else [slot[0]] + Without(slot[1..], k)
  }

  /** The connection has taken the request: sendRequest returns true. */
  predicate Accepted(write: Write) {
    write.Pending? || write.Unlinked? || write.Told? || write.Uncounted? || write.Finished?
  }

  /** Counted in write_counter, and not yet in write_done_counter. */
  predicate WriteOpen(write: Write) {
    write.Counted? || write.Refused? || write.Pending? || write.Unlinked? || write.Told? || write.Uncounted?
  }

  /** Both pairs of counters agree, and no read buffer is held any more. */
  predicate Settled(c: Client) {
    && c.taken.None?
    && forall k :: 0 <= k < |c.requests| ==>
                     && !WriteOpen(c.requests[k].write)
                     && (c.requests[k].place == Answered ==> c.requests[k].answer == Unbuffered || c.requests[k].answer == Released)
  }

  /** The close handler has freed the context of the connection. */
  predicate Gone(c: Client) {
    c.closing.Sweeping? || c.closing.Returned?
  }

  /** What an act needs of its request. */
  predicate Ready(r: Request, act: Act) {
    match act
    case FailEncoding | Register => r.write == Fresh
    case Count => r.write == Listed
    case Submit => r.write == Counted
    case CountRefused => r.write == Refused
    case Withdraw => r.write == Withdrawing
    case FreeRefused => r.write == Withdrawn
    case FinishWrite | FailWrite => r.write == Pending
    case TellFailed => r.write == Unlinked
    case FreeFailed => r.write == Told
    case CountWrite => r.write == Uncounted
    case Call => r.place == Answered && r.answer == Queued
    case LetGo => r.place == Answered && r.answer == Running
    case Release => r.place == Answered && r.answer == Unbuffered
    case Take | PutBack | Hand | GiveUp => true
  }

  /** The request a step belongs to. */
  function Subject(c: Client, step: Step): Option<nat>
    requires |c.slots| == SLOTS
  {
    match step
    case On(k, _) => Some(k)
    case Match(q) => First(c.slots[SlotOf(q)], q)
    case Incomplete | Respond => c.taken
    case Sweep => if c.closing.Sweeping? && c.closing.h < SLOTS && c.slots[c.closing.h] != [] then Some(c.slots[c.closing.h][0]) else None
    case _ => None
  }

  function ActOf(step: Step): Act {
    match step
    case On(_, act) => act
    case Match(_) => Take
    case Incomplete => PutBack
    case Respond => Hand
    case _ => GiveUp
  }

  predicate Enabled(c: Client, step: Step)
    requires |c.slots| == SLOTS
  {
    match step
    case Enter => c.closing.Open? || c.closing.Closed?
    case Number => c.entered > 0
    case On(k, act) => k < |c.requests| && Ready(c.requests[k], act) && !act.Take? && !act.PutBack? && !act.Hand? && !act.GiveUp?
    case Match(q) => !Gone(c) && c.taken.None? && Subject(c, step).Some? && Subject(c, step).value < |c.requests|
    case Incomplete | Respond | Sweep => Subject(c, step).Some? && Subject(c, step).value < |c.requests|
    case Close => c.closing.Open?
    case Forget => c.closing.Closed?
    case Wait => c.closing.Forgotten? && Settled(c)
    case NextSlot => c.closing.Sweeping? && c.closing.h < SLOTS && c.slots[c.closing.h] == []
    case Return => c.closing == Sweeping(SLOTS)
  }

  /** Drops one of the two references to a send_arg. */
  function Put(r: Request): Request {
    if r.ref - 1 == 0 then r.(ref := r.ref - 1, freed := r.freed + 1) else r.(ref := r.ref - 1)
  }

  /** What an act makes of its request; `open` tells whether the connection still takes writes. */
  function Changed(r: Request, act: Act, open: bool): Request {
    match act
    case FailEncoding | FreeRefused => r.(write := Over, freed := r.freed + 1)
    case Register => r.(place := Waiting, write := Listed)
    case Count => r.(write := Counted)
    case Submit => r.(write := if open then Pending else Refused)
    case CountRefused => r.(write := Withdrawing)
    case Withdraw => r.(place := Outside, write := Withdrawn)
    case FinishWrite => Put(r.(write := Uncounted))
    case FailWrite => r.(place := GivenUp, write := Unlinked)
    case TellFailed => r.(write := Told, called := r.called + 1)
    case FreeFailed => r.(write := Uncounted, freed := r.freed + 1)
    case CountWrite => r.(write := Finished)
    case Call => r.(answer := Running, called := r.called + 1)
    case LetGo => r.(answer := Unbuffered)
    case Release => Put(r.(answer := Released))
    case Take => r.(place := Taken, seen := true)
    case PutBack => r.(place := Waiting)
    case Hand => r.(place := Answered)
    case GiveUp => r.(place := GivenUp, called := r.called + 1, freed := r.freed + 1)
  }

  /** The lists after an act on request k, whose slot is fixed by its number. */
  function Lists(slots: seq<seq<nat>>, k: nat, act: Act): seq<seq<nat>>
    requires |slots| == SLOTS
  {
    var h := SlotOf(Sequence(k));
    match act
    case Register => slots[h := slots[h] + [k]]
    case PutBack => slots[h := [k] + slots[h]]
    case Withdraw | FailWrite | Take | GiveUp => slots[h := Without(slots[h], k)]
    case _ => slots
  }

  /** A step uses a send_arg, or the context of the connection, after it has been freed. */
  predicate Strays(c: Client, step: Step)
    requires |c.slots| == SLOTS && Enabled(c, step)
  {
    var act := ActOf(step);
    Subject(c, step).Some? &&
    if act.Count? || act.CountRefused? || act.CountWrite? then Gone(c)
    else c.requests[Subject(c, step).value].freed > 0 || (act.LetGo? && Gone(c))
  }

  function Apply(c: Client, step: Step): Client
    requires |c.slots| == SLOTS && Enabled(c, step)
  {
    match step
    case Enter => c.(entered := c.entered + 1)
    case Number => c.(entered := c.entered - 1, requests := c.requests + [NewRequest])
    case Close => c.(closing := Closed)
    case Forget => c.(closing := Forgotten)
    case Wait => c.(closing := Sweeping(0))
    case NextSlot => c.(closing := Sweeping(c.closing.h + 1))
    case Return => c.(closing := Returned)
    case _ => Acted(c, step)
  }

  function Acted(c: Client, step: Step): Client
    requires |c.slots| == SLOTS && Enabled(c, step) && Subject(c, step).Some?
  {
    var k, act := Subject(c, step).value, ActOf(step);
    c.(requests := c.requests[k := Changed(c.requests[k], act, c.closing.Open?)], slots := Lists(c.slots, k, act),
       taken := if act.Take? then Some(k) else if act.PutBack? || act.Hand? then None else c.taken,
       wild := c.wild || Strays(c, step))
  }

  /** A response comes only for a request the connection has taken, and never for one that fails to be written. */
  predicate Honest(c: Client, step: Step)
    requires |c.slots| == SLOTS && Enabled(c, step)
  {
    && (step.Match? ==> Accepted(c.requests[Subject(c, step).value].write))
    && (step.On? && step.act.FailWrite? ==> !c.requests[step.k].seen)
  }

  /** A call of sendRequest the counters say nothing about, with the table or the context still before it. */
  predicate Exposed(c: Client) {
    c.entered > 0 || exists k :: 0 <= k < |c.requests| && ExposedCall(c.requests[k].write)
  }

  predicate ExposedCall(write: Write) {
    write.Fresh? || write.Listed? || write.Withdrawing?
  }

  // ---- the account of every request ----

  /** Where a request stands and how far its write is decide what has been done for it. */
  predicate Accounted(r: Request) {
    && (r.place == Answered || r.answer == Queued)
    && (r.seen ==> Accepted(r.write))
    && match r.place
       case Outside =>
         && (r.write.Fresh? || r.write.Withdrawn? || r.write.Over?)
         && r.called == 0 && r.ref == 2 && r.freed == (if r.write.Over? then 1 else 0)
       case Waiting =>
         && !r.write.Fresh? && !r.write.Withdrawn? && !r.write.Over? && !r.write.Unlinked? && !r.write.Told?
         && r.called == 0 && r.freed == 0 && r.ref == (if Done(r.write) then 1 else 2)
       case Taken =>
         && (r.write.Pending? || Done(r.write)) && r.seen
         && r.called == 0 && r.freed == 0 && r.ref == (if Done(r.write) then 1 else 2)
       case Answered =>
         && (r.write.Pending? || Done(r.write)) && r.seen
         && r.called == (if r.answer.Queued? then 0 else 1)
         && r.ref == (if Done(r.write) then 0 else 1) + (if r.answer.Released? then 0 else 1)
         && r.freed == (if r.ref == 0 then 1 else 0)
       case GivenUp =>
         && (r.write.Unlinked? || r.write.Told? || Done(r.write))
         && r.called == (if r.write.Unlinked? then 0 else 1) && r.freed == (if Done(r.write) then 1 else 0)
  }

  predicate Done(write: Write) {
    write.Uncounted? || write.Finished?
  }

  /** A request stands in its own slot while it waits, and nowhere else. */
  predicate Slotted(c: Client, h: nat, k: nat)
    requires h < |c.slots|
  {
    multiset(c.slots[h])[k] == One(k < |c.requests| && c.requests[k].place == Waiting && h == SlotOf(Sequence(k)))
  }

  /** What the close handler has behind it when it has stopped waiting. */
  predicate Quiet(c: Client) {
    && (Gone(c) ==> Settled(c) && !Exposed(c))
    && (c.closing.Sweeping? ==> c.closing.h <= SLOTS)
    && forall h :: 0 <= h < |c.slots| && (c.closing.Returned? || (c.closing.Sweeping? && h < c.closing.h)) ==> c.slots[h] == []
  }

  ghost predicate Invariant(c: Client) {
    && |c.slots| == SLOTS && !c.wild && Quiet(c)
    && (forall k :: 0 <= k < |c.requests| ==> Accounted(c.requests[k]))
    && (forall h: nat, k: nat :: h < SLOTS ==> Slotted(c, h, k))
    && (forall k :: 0 <= k < |c.requests| ==> (c.requests[k].place == Taken <==> c.taken == Some(k)))
    && (c.taken.Some? ==> c.taken.value < |c.requests|)
  }

  lemma {:induction false} WithoutCounts(slot: seq<nat>, k: nat, j: nat)
    requires k in slot
    ensures multiset(Without(slot, k))[j] == multiset(slot)[j] - One(j == k)
  {
    assert slot == [slot[0]] + slot[1..];
    if slot[0] != k {
      WithoutCounts(slot[1..], k, j);
    }
  }

  lemma Stands(c: Client, h: nat, k: nat)
    requires Invariant(c) && h < SLOTS
    ensures k in c.slots[h] <==> k < |c.requests| && c.requests[k].place == Waiting && h == SlotOf(Sequence(k))
  {
    assert Slotted(c, h, k);
  }

  /** An act finds its request where it expects it. */
  predicate Fit(r: Request, act: Act) {
    && Ready(r, act)
    && (act.Take? ==> r.place == Waiting && Accepted(r.write))
    && (act.PutBack? || act.Hand? ==> r.place == Taken)
    && (act.GiveUp? ==> r.place == Waiting && r.write == Finished)
    && (act.FailWrite? ==> !r.seen)
  }

  lemma SubjectFits(c: Client, step: Step)
    requires Invariant(c) && Enabled(c, step) && Honest(c, step) && Subject(c, step).Some?
    ensures var k := Subject(c, step).value;
            && k < |c.requests| && Fit(c.requests[k], ActOf(step)) && Accounted(c.requests[k])
            && (step.Match? || step.Sweep? ==> k in c.slots[SlotOf(Sequence(k))])
            && (step.Match? ==> Sequence(k) == step.sequence) && (step.Sweep? ==> SlotOf(Sequence(k)) == c.closing.h)
  {
    hide Slotted, First, Without, Sequence, SlotOf, Accounted, ExposedCall;
    var k := Subject(c, step).value;
    match step {
      case Match(q) => Stands(c, SlotOf(q), k);
      case Sweep =>
        Stands(c, c.closing.h, k);
        assert !WriteOpen(c.requests[k].write) && !ExposedCall(c.requests[k].write);
        WaitingIsFinished(c.requests[k]);
      case _ =>
    }
  }

  lemma WaitingIsFinished(r: Request)
    requires Accounted(r) && r.place == Waiting && !WriteOpen(r.write) && !ExposedCall(r.write)
    ensures r.write == Finished
  {
  }

  lemma ChangedAccounted(r: Request, act: Act, open: bool)
    requires Accounted(r) && Fit(r, act)
    ensures Accounted(Changed(r, act, open))
  {
  }

  predicate Adds(act: Act) {
    act.Register? || act.PutBack?
  }

  predicate Removes(act: Act) {
    act.Withdraw? || act.FailWrite? || act.Take? || act.GiveUp?
  }

  /** The acts of callers, of the write callback and of workers that leave the lists alone. */
  predicate Alone(act: Act) {
    !Adds(act) && !Removes(act) && !act.Hand?
  }

  /** An act uses no freed send_arg, and moves its request into a list, off one, or neither. */
  lemma FitMoves(r: Request, act: Act, open: bool)
    requires Accounted(r) && Fit(r, act)
    ensures act.Count? || act.CountRefused? || act.CountWrite? || r.freed == 0
    ensures Adds(act) ==> r.place != Waiting
    ensures Removes(act) ==> r.place == Waiting
    ensures Changed(r, act, open).place == Waiting <==> Adds(act) || (r.place == Waiting && !Removes(act))
    ensures Changed(r, act, open).place == Taken <==> act.Take? || (r.place == Taken && !act.PutBack? && !act.Hand?)
  {
  }

  lemma ListsCount(slots: seq<seq<nat>>, k: nat, act: Act, h: nat, j: nat)
    requires |slots| == SLOTS && h < SLOTS && (Removes(act) ==> k in slots[SlotOf(Sequence(k))])
    ensures multiset(Lists(slots, k, act)[h])[j] ==
            multiset(slots[h])[j] + (if h == SlotOf(Sequence(k)) && j == k then One(Adds(act)) - One(Removes(act)) else 0)
  {
    hide SlotOf, Sequence, Without;
    if Removes(act) {
      WithoutCounts(slots[SlotOf(Sequence(k))], k, j);
    }
  }

  lemma SlottedByAct(c: Client, step: Step, h: nat, j: nat)
    requires Invariant(c) && Enabled(c, step) && Honest(c, step) && Subject(c, step).Some? && h < SLOTS
    ensures Slotted(Acted(c, step), h, j)
  {
    SubjectFits(c, step);
    var k, act := Subject(c, step).value, ActOf(step);
    FitMoves(c.requests[k], act, c.closing.Open?);
    Stands(c, SlotOf(Sequence(k)), k);
    ListsCount(c.slots, k, act, h, j);
    assert Slotted(c, h, j);
    hide Invariant, Lists, Changed, Subject, ActOf, Sequence, SlotOf, Fit, Accounted, Adds, Removes, Strays, Enabled, Honest;
  }

  /** The close handler stops waiting only when no call is exposed. */
  predicate Guarded(c: Client, step: Step) {
    step.Wait? ==> !Exposed(c)
  }

  lemma RequestsKept(c: Client, step: Step, j: nat)
    requires Invariant(c) && Enabled(c, step) && Honest(c, step) && j < |Apply(c, step).requests|
    ensures Accounted(Apply(c, step).requests[j])
    ensures Apply(c, step).requests[j].place == Taken <==> Apply(c, step).taken == Some(j)
  {
    hide SlotOf, Sequence, First, Without, Slotted, Strays, Lists, Quiet, Exposed, Changed, Fit, Accounted;
    if j < |c.requests| {
      assert Accounted(c.requests[j]);
    }
    NewIsAccounted();
    if Subject(c, step).Some? {
      var k, act := Subject(c, step).value, ActOf(step);
      SubjectFits(c, step);
      FitMoves(c.requests[k], act, c.closing.Open?);
      ChangedAccounted(c.requests[k], act, c.closing.Open?);
    }
  }

  lemma NewIsAccounted()
    ensures Accounted(NewRequest)
  {
  }

  lemma NeverStrays(c: Client, step: Step)
    requires Invariant(c) && Enabled(c, step) && Honest(c, step)
    ensures !Strays(c, step)
  {
    if Subject(c, step).Some? {
      SubjectFits(c, step);
      FitMoves(c.requests[Subject(c, step).value], ActOf(step), true);
    }
    hide SlotOf, Sequence, First, Without, Slotted, Accounted, Lists, Changed;
  }

  /** Once the close handler has stopped waiting, nothing becomes pending or exposed again. */
  lemma QuietByAct(c: Client, step: Step)
    requires |c.slots| == SLOTS && Enabled(c, step) && Subject(c, step).Some? && Quiet(c) && Gone(c)
    ensures Quiet(Apply(c, step))
  {
    hide Strays;
  }

  lemma QuietKept(c: Client, step: Step)
    requires Invariant(c) && Enabled(c, step) && Honest(c, step) && Guarded(c, step)
    ensures Quiet(Apply(c, step))
  {
    hide SlotOf, Sequence, First, Without, Slotted, Strays, Changed, Accounted, Fit, WriteOpen, ExposedCall;
    if Subject(c, step).Some? && Gone(c) {
      QuietByAct(c, step);
    }
  }

  lemma TakenKept(c: Client, step: Step)
    requires Invariant(c) && Enabled(c, step) && Honest(c, step)
    ensures var e := Apply(c, step); |e.slots| == SLOTS && (e.taken.Some? ==> e.taken.value < |e.requests|)
  {
    if Subject(c, step).Some? {
      SubjectFits(c, step);
    }
    hide SlotOf, Sequence, First, Without, Slotted, Accounted, Quiet, Strays, Exposed, Changed;
  }

  lemma WildKept(c: Client, step: Step)
    requires Invariant(c) && Enabled(c, step) && Honest(c, step)
    ensures !Apply(c, step).wild
  {
    NeverStrays(c, step);
    hide SlotOf, Sequence, First, Without, Slotted, Accounted, Quiet, Strays, Exposed, Changed, Lists;
  }

  lemma SlottedKept(c: Client, step: Step, h: nat, k: nat)
    requires Invariant(c) && Enabled(c, step) && Honest(c, step) && h < SLOTS && |Apply(c, step).slots| == SLOTS
    ensures Slotted(Apply(c, step), h, k)
  {
    if Subject(c, step).Some? {
      SlottedByAct(c, step, h, k);
    } else {
      assert Slotted(c, h, k);
    }
    hide SlotOf, Sequence, First, Without, Accounted, Quiet, Strays, Exposed, Changed, Lists;
  }

  lemma ClientKept(c: Client, step: Step)
    requires Invariant(c) && Enabled(c, step) && Honest(c, step) && Guarded(c, step)
    ensures Invariant(Apply(c, step))
  {
    QuietKept(c, step);
    WildKept(c, step);
    TakenKept(c, step);
    forall k | 0 <= k < |Apply(c, step).requests|
      ensures Accounted(Apply(c, step).requests[k])
      ensures Apply(c, step).requests[k].place == Taken <==> Apply(c, step).taken == Some(k)
    {
      RequestsKept(c, step, k);
    }
    forall h: nat, k: nat | h < SLOTS ensures Slotted(Apply(c, step), h, k) {
      SlottedKept(c, step, h, k);
    }
    hide Apply, Enabled, Honest, Guarded, Slotted, Accounted, Quiet;
  }

  // ---- runs ----

  predicate Runs(c: Client, steps: seq<Step>, end: Client)
    requires |c.slots| == SLOTS
    decreases |steps|
  {
    if steps == [] then c == end
    else
      && Enabled(c, steps[0]) && Honest(c, steps[0])
      && |Apply(c, steps[0]).slots| == SLOTS && Runs(Apply(c, steps[0]), steps[1..], end)
  }

  /** Runs in which the close handler never stops waiting while a call is exposed. */
  predicate RunsGuarded(c: Client, steps: seq<Step>, end: Client)
    requires |c.slots| == SLOTS
    decreases |steps|
  {
    if steps == [] then c == end
    else
      && Enabled(c, steps[0]) && Honest(c, steps[0]) && Guarded(c, steps[0])
      && |Apply(c, steps[0]).slots| == SLOTS && RunsGuarded(Apply(c, steps[0]), steps[1..], end)
  }

  lemma {:induction false} RunKeeps(c: Client, steps: seq<Step>, end: Client)
    requires Invariant(c) && RunsGuarded(c, steps, end)
    ensures Invariant(end)
    decreases |steps|
  {
    if steps != [] {
      ClientKept(c, steps[0]);
      hide Invariant;
      RunKeeps(Apply(c, steps[0]), steps[1..], end);
    }
  }

  /** After the wait there is nothing left to guard. */
  lemma {:induction false} GoneIsGuarded(c: Client, steps: seq<Step>, end: Client)
    requires |c.slots| == SLOTS && Gone(c) && Runs(c, steps, end)
    ensures RunsGuarded(c, steps, end)
    decreases |steps|
  {
    hide Honest, Strays, Changed, Lists;
    if steps != [] {
      GoneIsGuarded(Apply(c, steps[0]), steps[1..], end);
    }
  }

  lemma NewClientInvariant()
    ensures Invariant(NewClient)
  {
    forall h: nat, k: nat | h < SLOTS ensures Slotted(NewClient, h, k) {
      assert NewClient.slots[h] == [];
    }
  }

  /** In every such run nothing is touched after it has been freed, and each request is called back at most
      once and freed at most once.  A call that returned false has had no callback.  When the close handler
      returns, every request of a call that returned true has been called back exactly once, and it has been
      freed exactly once unless a worker has still to drop its reference: the handler waits for the read
      buffer the worker lets go of, and that comes first. */
  lemma ExactlyOneCallback(steps: seq<Step>, end: Client, k: nat)
    requires RunsGuarded(NewClient, steps, end) && k < |end.requests|
    ensures var r := end.requests[k];
            && !end.wild && r.called <= 1 && r.freed <= 1
            && (!Accepted(r.write) ==> r.called == 0 && (r.write == Over ==> r.freed == 1))
            && (end.closing.Returned? && Accepted(r.write) ==>
                  r.called == 1 && (r.freed == 1 <==> !(r.place == Answered && r.answer == Unbuffered)))
  {
    NewClientInvariant();
    RunKeeps(NewClient, steps, end);
    assert Accounted(end.requests[k]);
    if end.closing.Returned? {
      Stands(end, SlotOf(Sequence(k)), k);
    }
  }

  // ---- when a request of a returned client is not freed, and when a run strays ----

  lemma {:induction false} RunsMore(c: Client, steps: seq<Step>, mid: Client, step: Step)
    requires |c.slots| == SLOTS && Runs(c, steps, mid) && |mid.slots| == SLOTS && Enabled(mid, step) && Honest(mid, step)
    requires |Apply(mid, step).slots| == SLOTS
    ensures Runs(c, steps + [step], Apply(mid, step))
    decreases |steps|
  {
    hide Enabled, Apply, Honest;
    var all := steps + [step];
    if steps == [] {
      assert all[1..] == [] && all[0] == step;
    } else {
      RunsMore(Apply(c, steps[0]), steps[1..], mid, step);
      assert all[1..] == steps[1..] + [step] && all[0] == steps[0];
    }
  }

  lemma SlotsStay(c: Client, step: Step)
    requires |c.slots| == SLOTS && Enabled(c, step)
    ensures |Apply(c, step).slots| == SLOTS
  {
  }

  predicate Homed(c: Client, h: nat)
    requires h < |c.slots|
  {
    forall i :: 0 <= i < |c.slots[h]| ==> c.slots[h][i] < |c.requests| && h == SlotOf(Sequence(c.slots[h][i]))
  }

  /** A request in the table is reached by the sweep. */
  lemma {:induction false} SweepReaches(c: Client, k: nat) returns (steps: seq<Step>, end: Client)
    requires |c.slots| == SLOTS && c.closing.Sweeping? && c.closing.h <= SlotOf(Sequence(k)) && k < |c.requests|
    requires k in c.slots[SlotOf(Sequence(k))]
    requires forall h :: 0 <= h < SLOTS ==> Homed(c, h)
    ensures Runs(c, steps, end) && |end.slots| == SLOTS && end.closing.Sweeping?
    ensures |end.requests| == |c.requests| && end.requests[k].freed > 0 && end.requests[k].write == c.requests[k].write
    decreases SlotOf(Sequence(k)) - c.closing.h, |c.slots[c.closing.h]|
  {
    hide Sequence, Runs, Strays, First;
    var h := c.closing.h;
    var step := if c.slots[h] == [] then NextSlot else Sweep;
    assert Homed(c, h);
    var e := Apply(c, step);
    if step.Sweep? {
      var j := c.slots[h][0];
      assert c.slots[h] == [j] + c.slots[h][1..];
      assert e.slots == c.slots[h := c.slots[h][1..]];
      if j == k {
        steps, end := [Sweep], e;
        assert Runs(c, [Sweep], e) by { OneStep(c, Sweep); }
        return;
      }
    }
    forall g | 0 <= g < SLOTS ensures Homed(e, g) {
      assert Homed(c, g);
    }
    var rest;
    rest, end := SweepReaches(e, k);
    steps := [step] + rest;
    StepThen(c, step, rest, end);
  }

  lemma OneStep(c: Client, step: Step)
    requires |c.slots| == SLOTS && Enabled(c, step) && Honest(c, step)
    ensures |Apply(c, step).slots| == SLOTS && Runs(c, [step], Apply(c, step))
  {
    SlotsStay(c, step);
    hide Enabled, Apply, Honest;
    assert [step][1..] == [];
  }

  lemma StepThen(c: Client, step: Step, rest: seq<Step>, end: Client)
    requires |c.slots| == SLOTS && Enabled(c, step) && Honest(c, step)
    requires |Apply(c, step).slots| == SLOTS && Runs(Apply(c, step), rest, end)
    ensures Runs(c, [step] + rest, end)
  {
    hide Enabled, Apply, Honest;
    assert ([step] + rest)[1..] == rest;
  }

  /** From a call that is exposed when the handler stops waiting, a run goes on to touch what has been freed:
      the context it counts in, or a send_arg that the sweep has called back and freed in the meantime. */
  lemma ExposedStrays(c: Client) returns (steps: seq<Step>, end: Client)
    requires Invariant(c) && Enabled(c, Wait) && Exposed(c)
    ensures |Apply(c, Wait).slots| == SLOTS && Runs(Apply(c, Wait), steps, end) && end.wild
  {
    var w := Apply(c, Wait);
    if c.entered > 0 {
      var n := |c.requests|;
      var e := Apply(w, Number);
      steps, end := FreshStrays(e, n);
      steps := StepBefore(w, Number, steps, end);
    } else {
      var k :| 0 <= k < |c.requests| && ExposedCall(c.requests[k].write);
      assert Accounted(c.requests[k]);
      if c.requests[k].write == Fresh {
        steps, end := FreshStrays(w, k);
      } else if c.requests[k].write == Listed {
        steps, end := ListedStrays(w, k);
      } else {
        steps, end := WithdrawingStrays(c, k);
      }
    }
  }

  lemma StepBefore(c: Client, step: Step, rest: seq<Step>, end: Client) returns (steps: seq<Step>)
    requires |c.slots| == SLOTS && Enabled(c, step) && Honest(c, step)
    requires |Apply(c, step).slots| == SLOTS && Runs(Apply(c, step), rest, end)
    ensures Runs(c, steps, end)
  {
    StepThen(c, step, rest, end);
    steps := [step] + rest;
  }

  lemma ListedStrays(c: Client, k: nat) returns (steps: seq<Step>, end: Client)
    requires |c.slots| == SLOTS && Gone(c) && k < |c.requests| && c.requests[k].write == Listed
    ensures Runs(c, steps, end) && end.wild
  {
    hide Runs, Lists, Changed;
    OneStep(c, On(k, Count));
    steps, end := [On(k, Count)], Apply(c, On(k, Count));
  }

  lemma FreshStrays(c: Client, k: nat) returns (steps: seq<Step>, end: Client)
    requires |c.slots| == SLOTS && Gone(c) && k < |c.requests| && c.requests[k].write == Fresh
    ensures Runs(c, steps, end) && end.wild
  {
    hide Runs, Strays;
    SlotsStay(c, On(k, Register));
    steps, end := ListedStrays(Apply(c, On(k, Register)), k);
    steps := StepBefore(c, On(k, Register), steps, end);
  }

  lemma WithdrawingStrays(c: Client, k: nat) returns (steps: seq<Step>, end: Client)
    requires Invariant(c) && Enabled(c, Wait) && k < |c.requests| && c.requests[k].write == Withdrawing
    ensures |Apply(c, Wait).slots| == SLOTS && Runs(Apply(c, Wait), steps, end) && end.wild
  {
    hide First, Sequence, Quiet, Exposed, Runs;
    var w := Apply(c, Wait);
    assert Accounted(c.requests[k]);
    Stands(c, SlotOf(Sequence(k)), k);
    forall h: nat | h < SLOTS ensures Homed(w, h) {
      forall i | 0 <= i < |c.slots[h]| ensures c.slots[h][i] < |c.requests| && h == SlotOf(Sequence(c.slots[h][i])) {
        Stands(c, h, c.slots[h][i]);
      }
    }
    hide Invariant, Slotted, Accounted;
    steps, end := SweepReaches(w, k);
    var step := On(k, Withdraw);
    SlotsStay(end, step);
    RunsMore(w, steps, end, step);
    steps, end := steps + [step], Apply(end, step);
  }

  /** A step that touches something freed can still come. */
  ghost predicate CanStray(c: Client)
    requires |c.slots| == SLOTS
  {
    exists steps: seq<Step>, end: Client :: Runs(c, steps, end) && end.wild
  }

  /** Exactly if a call is exposed when the close handler stops waiting, a later step can touch what has been
      freed. */
  lemma WaitIsSafe(c: Client)
    requires Invariant(c) && Enabled(c, Wait)
    ensures |Apply(c, Wait).slots| == SLOTS
    ensures CanStray(Apply(c, Wait)) <==> Exposed(c)
  {
    var w := Apply(c, Wait);
    if Exposed(c) {
      var steps, end := ExposedStrays(c);
    } else {
      ClientKept(c, Wait);
      forall steps: seq<Step>, end: Client | Runs(w, steps, end) ensures !end.wild {
        GoneIsGuarded(w, steps, end);
        RunKeeps(w, steps, end);
      }
    }
  }

  lemma {:induction false} GuardedMore(c: Client, steps: seq<Step>, mid: Client, step: Step)
    requires |c.slots| == SLOTS && RunsGuarded(c, steps, mid) && |mid.slots| == SLOTS && Enabled(mid, step) && Honest(mid, step)
    requires |Apply(mid, step).slots| == SLOTS && Guarded(mid, step)
    ensures RunsGuarded(c, steps + [step], Apply(mid, step))
    decreases |steps|
  {
    hide Enabled, Apply, Honest, Guarded;
    var all := steps + [step];
    if steps == [] {
      assert all[1..] == [] && all[0] == step;
    } else {
      GuardedMore(Apply(c, steps[0]), steps[1..], mid, step);
      assert all[1..] == steps[1..] + [step] && all[0] == steps[0];
    }
  }

  /** An empty table is swept through without a callback. */
  lemma {:induction false} EmptySweep(c0: Client, before: seq<Step>, c: Client) returns (steps: seq<Step>)
    requires |c0.slots| == SLOTS && RunsGuarded(c0, before, c)
    requires |c.slots| == SLOTS && c.closing.Sweeping? && c.closing.h <= SLOTS && forall h :: 0 <= h < SLOTS ==> c.slots[h] == []
    ensures RunsGuarded(c0, steps, c.(closing := Returned))
    decreases SLOTS - c.closing.h
  {
    hide RunsGuarded;
    var step := if c.closing.h == SLOTS then Return else NextSlot;
    GuardedMore(c0, before, c, step);
    steps := before + [step];
    if step.NextSlot? {
      steps := EmptySweep(c0, steps, Apply(c, step));
    }
  }

  /** One act of the only request, in a run. */
  lemma Extend(steps: seq<Step>, c: Client, act: Act) returns (more: seq<Step>, e: Client)
    requires |c.slots| == SLOTS && RunsGuarded(NewClient, steps, c) && |c.requests| == 1
    requires Enabled(c, On(0, act)) && !act.FailWrite? && !act.Register? && !act.Withdraw?
    ensures |e.slots| == SLOTS && RunsGuarded(NewClient, more, e)
    ensures e == c.(requests := [Changed(c.requests[0], act, c.closing.Open?)], wild := e.wild)
  {
    hide RunsGuarded, Changed, Strays;
    e := Apply(c, On(0, act));
    GuardedMore(NewClient, steps, c, On(0, act));
    more := steps + [On(0, act)];
    assert c.requests == [c.requests[0]];
  }

  predicate EmptyTable(slots: seq<seq<nat>>) {
    |slots| == SLOTS && forall h :: 0 <= h < SLOTS ==> slots[h] == []
  }

  /** The first call, registered. */
  lemma FirstCall() returns (steps: seq<Step>, c: Client)
    ensures |c.slots| == SLOTS && RunsGuarded(NewClient, steps, c)
    ensures c == Client(0, [NewRequest.(place := Waiting, write := Listed)], c.slots, None, Open, c.wild)
    ensures forall h :: 0 <= h < SLOTS ==> c.slots[h] == if h == SlotOf(Sequence(0)) then [0] else []
  {
    hide RunsGuarded, Sequence, SlotOf, Strays;
    assert RunsGuarded(NewClient, [], NewClient) by { GuardedNothing(NewClient); }
    GuardedMore(NewClient, [], NewClient, Enter);
    var c1 := Apply(NewClient, Enter);
    GuardedMore(NewClient, [] + [Enter], c1, Number);
    var c2 := Apply(c1, Number);
    var step := On(0, Register);
    GuardedMore(NewClient, [] + [Enter] + [Number], c2, step);
    steps, c := [] + [Enter] + [Number] + [step], Apply(c2, step);
    assert c2.requests == [NewRequest];
  }

  lemma GuardedNothing(c: Client)
    requires |c.slots| == SLOTS
    ensures RunsGuarded(c, [], c)
  {
  }

  /** Its response is matched and handed to a worker. */
  lemma FirstAnswer(before: seq<Step>, c: Client) returns (steps: seq<Step>, e: Client)
    requires |c.slots| == SLOTS && RunsGuarded(NewClient, before, c)
    requires |c.requests| == 1 && Accepted(c.requests[0].write) && c.closing.Open? && c.taken.None?
    requires forall h :: 0 <= h < SLOTS ==> c.slots[h] == if h == SlotOf(Sequence(0)) then [0] else []
    ensures RunsGuarded(NewClient, steps, e) && EmptyTable(e.slots)
    ensures e == c.(requests := [c.requests[0].(place := Answered, seen := true)], slots := e.slots, wild := e.wild)
  {
    hide RunsGuarded, Sequence, SlotOf, Strays;
    var q := Sequence(0);
    assert First(c.slots[SlotOf(q)], q) == Some(0);
    var e1 := Apply(c, Match(q));
    GuardedMore(NewClient, before, c, Match(q));
    assert e1.requests == [c.requests[0].(place := Taken, seen := true)];
    assert Without([0], 0) == [];
    e := Apply(e1, Respond);
    GuardedMore(NewClient, before + [Match(q)], e1, Respond);
    steps := before + [Match(q)] + [Respond];
    assert e.requests == [c.requests[0].(place := Answered, seen := true)];
  }

  /** The connection is closed, and the handler waits and goes through an empty table. */
  lemma ClosesEmpty(before: seq<Step>, c: Client) returns (steps: seq<Step>)
    requires EmptyTable(c.slots) && RunsGuarded(NewClient, before, c) && c.closing.Open? && c.entered == 0
    requires Settled(c) && !Exposed(c)
    ensures RunsGuarded(NewClient, steps, c.(closing := Returned))
  {
    hide RunsGuarded, Settled, Exposed;
    StaysSettled(c);
    GuardedMore(NewClient, before, c, Close);
    GuardedMore(NewClient, before + [Close], c.(closing := Closed), Forget);
    GuardedMore(NewClient, before + [Close] + [Forget], c.(closing := Forgotten), Wait);
    steps := EmptySweep(NewClient, before + [Close] + [Forget] + [Wait], c.(closing := Sweeping(0)));
  }

  lemma StaysSettled(c: Client)
    requires Settled(c) && !Exposed(c)
    ensures Settled(c.(closing := Forgotten)) && !Exposed(c.(closing := Forgotten))
  {
    var d := c.(closing := Forgotten);
    forall k | 0 <= k < |d.requests| ensures !ExposedCall(d.requests[k].write) {
      assert !ExposedCall(c.requests[k].write);
    }
  }

  /** The handler can return with a request called back and not freed yet. */
  lemma ReturnBeforeFree()
    ensures exists steps: seq<Step>, end: Client ::
              && RunsGuarded(NewClient, steps, end) && end.closing.Returned? && |end.requests| == 1
              && Accepted(end.requests[0].write) && end.requests[0].called == 1 && end.requests[0].freed == 0
  {
    hide RunsGuarded, Settled, Exposed;
    var steps, c := AnsweredRun();
    steps := ClosesEmpty(steps, c);
    var end := c.(closing := Returned);
    assert RunsGuarded(NewClient, steps, end);
  }

  /** The first call up to the point where the worker has let go of the read buffer. */
  lemma AnsweredRun() returns (steps: seq<Step>, c: Client)
    ensures EmptyTable(c.slots) && RunsGuarded(NewClient, steps, c) && c.closing.Open? && c.entered == 0
    ensures c.requests == [Request(Answered, Unbuffered, Finished, true, 1, 1, 0)] && Settled(c) && !Exposed(c)
  {
    hide RunsGuarded, Sequence, SlotOf, Lists, First, Without, Strays;
    steps, c := FirstCall();
    steps, c := Extend(steps, c, Count);
    steps, c := Extend(steps, c, Submit);
    steps, c := Extend(steps, c, FinishWrite);
    steps, c := Extend(steps, c, CountWrite);
    steps, c := FirstAnswer(steps, c);
    steps, c := Extend(steps, c, Call);
    steps, c := Extend(steps, c, LetGo);
  }

  /** In such a run no step, even one that is still to come, uses a send_arg or the context after it was freed. */
  lemma NoStepAfterFree(steps: seq<Step>, end: Client, step: Step)
    requires RunsGuarded(NewClient, steps, end) && |end.slots| == SLOTS && Enabled(end, step) && Honest(end, step)
    ensures !end.wild && !Strays(end, step)
  {
    NewClientInvariant();
    RunKeeps(NewClient, steps, end);
    NeverStrays(end, step);
  }

  /** A response reaches the request with its number and no other, as long as fewer numbers than there are
      have been taken between any two requests that wait. */
  lemma ResponseFindsItsRequest(steps: seq<Step>, c: Client, k: nat)
    requires RunsGuarded(NewClient, steps, c) && |c.slots| == SLOTS && k < |c.requests| && c.requests[k].place == Waiting
    ensures var q := Sequence(k);
            First(c.slots[SlotOf(q)], q).Some?
    ensures (forall j :: 0 <= j < |c.requests| && c.requests[j].place == Waiting ==> -SEQUENCE_WRAP < j - k < SEQUENCE_WRAP) ==>
              First(c.slots[SlotOf(Sequence(k))], Sequence(k)) == Some(k)
  {
    NewClientInvariant();
    RunKeeps(NewClient, steps, c);
    var q := Sequence(k);
    Stands(c, SlotOf(q), k);
    var j := First(c.slots[SlotOf(q)], q).value;
    Stands(c, SlotOf(q), j);
    if -SEQUENCE_WRAP < j - k < SEQUENCE_WRAP {
      SameSequence(j, k);
    }
  }

  lemma SameSequence(j: nat, k: nat)
    requires Sequence(j) == Sequence(k) && -SEQUENCE_WRAP < j - k < SEQUENCE_WRAP
    ensures j == k
  {
  }

  lemma {:induction false} WithoutAt(list: seq<nat>, i: nat)
    requires i < |list| && forall j :: 0 <= j < i ==> Sequence(list[j]) != Sequence(list[i])
    ensures Without(list, list[i]) == list[..i] + list[i + 1..]
  {
    if i > 0 {
      WithoutAt(list[1..], i - 1);
      assert list[..i] + list[i + 1..] == [list[0]] + (list[1..][..i - 1] + list[1..][i..]);
    }
  }

  // ---- the code ----

  /** A registered request stands at the end of the slot of its number. */
  lemma TailOfSlot(slots: seq<seq<nat>>, k: nat)
    requires |slots| == SLOTS
    ensures |Lists(slots, k, Register)| == SLOTS && Lists(slots, k, Register)[Sequence(k) % 128] == slots[Sequence(k) % 128] + [k]
  {
    hide Sequence;
  }

  /** The client with its table, and the functions of Client.c, each executed without interference. */
  class WaitingTable {
    var entered: nat
    var requests: seq<Request>
    var slots: array<seq<nat>>
    var taken: Option<nat>
    var closing: Closing
    ghost var wild: bool

    ghost predicate Valid()
      reads this
    {
      slots.Length == SLOTS
    }

    ghost function State(): Client
      reads this, slots
    {
      Client(entered, requests, slots[..], taken, closing, wild)
    }

    constructor ()
      ensures Valid() && fresh(slots) && State() == NewClient
    {
      entered, requests, taken, closing, wild := 0, [], None, Open, false;
      slots := new seq<nat>[SLOTS](_ => []);
    }

    /** The locked section of sendRequest that puts the request at the end of its slot. */
    method Register(k: nat)
      requires Valid() && Enabled(State(), On(k, Act.Register))
      modifies `requests, `wild, slots
      ensures Valid() && slots == old(slots) && State() == Apply(old(State()), On(k, Act.Register))
      ensures var h := Sequence(k) % 128;
              slots[h] == old(slots[h]) + [k] && forall i :: 0 <= i < 128 && i != h ==> slots[i] == old(slots[i])
    {
      ghost var was := State();
      var h := SlotOf(Sequence(k));
      slots[h] := slots[h] + [k];
      requests := requests[k := requests[k].(place := Waiting, write := Listed)];
      wild := was.wild || Strays(was, On(k, Act.Register));
    }

    /** The lookup of a response: takes the first request with its number off the list. */
    method TakeMatching(sequence: nat) returns (k: Option<nat>)
      requires Valid() && Invariant(State()) && !closing.Sweeping? && !closing.Returned? && taken.None?
      modifies this, slots
      ensures Valid() && slots == old(slots)
      ensures k == First(old(slots[SlotOf(sequence)]), sequence)
      ensures k.None? ==> State() == old(State())
      ensures k.Some? ==> Enabled(old(State()), Match(sequence)) && State() == Apply(old(State()), Match(sequence))
      ensures var h, list := sequence % 128, old(slots[sequence % 128]);
              && (forall i :: 0 <= i < 128 && i != h ==> slots[i] == old(slots[i]))
              && (k.None? ==> forall j :: 0 <= j < |list| ==> Sequence(list[j]) != sequence)
              && (k.Some? ==> exists i :: 0 <= i < |list| && list[i] == k.value && Sequence(list[i]) == sequence
                                          && (forall j :: 0 <= j < i ==> Sequence(list[j]) != sequence)
                                          && slots[h] == list[..i] + list[i + 1..])
    {
      hide Invariant, Apply, Enabled, Strays, Sequence;
      ghost var was := State();
      var h := SlotOf(sequence);
      var i := 0;
      var list := slots[h];
      while i < |list|
        invariant 0 <= i <= |list|
        invariant First(list, sequence) == First(list[i..], sequence)
        invariant forall j :: 0 <= j < i ==> Sequence(list[j]) != sequence
      {
        if Sequence(list[i]) == sequence {
          MatchApplies(was, sequence, i);
          slots[h] := list[..i] + list[i + 1..];
          requests := requests[list[i] := requests[list[i]].(place := Taken, seen := true)];
          taken := Some(list[i]);
          wild := Apply(was, Match(sequence)).wild;
          return Some(list[i]);
        }
        i := i + 1;
      }
      k := None;
    }

    /** The response is not complete yet: the request goes back to the head of its slot. */
    method PutBack()
      requires Valid() && Enabled(State(), Incomplete)
      modifies this, slots
      ensures Valid() && slots == old(slots) && taken.None? && State() == Apply(old(State()), Incomplete)
      ensures var k := old(taken).value;
              var h := Sequence(k) % 128;
              slots[h] == [k] + old(slots[h]) && forall i :: 0 <= i < 128 && i != h ==> slots[i] == old(slots[i])
    {
      ghost var was := State();
      var k := taken.value;
      var h := SlotOf(Sequence(k));
      slots[h] := [k] + slots[h];
      requests := requests[k := requests[k].(place := Waiting)];
      taken := None;
      wild := was.wild || Strays(was, Incomplete);
    }

    /** One step taken by this thread: the run so far grows by it. */
    ghost method Took(was: Client, before: seq<Step>, mid: Client, step: Step) returns (steps: seq<Step>)
      requires |was.slots| == SLOTS && Runs(was, before, mid) && Invariant(mid)
      requires Enabled(mid, step) && Honest(mid, step) && Guarded(mid, step) && Apply(mid, step) == State()
      ensures steps == before + [step] && Runs(was, steps, State()) && Invariant(State())
    {
      ClientKept(mid, step);
      hide Invariant, Runs, Apply, Enabled, Honest;
      SlotsStay(mid, step);
      RunsMore(was, before, mid, step);
      steps := before + [step];
    }

    /** One step that leaves the lists alone: the request's fields become those of r. */
    method Store(k: nat, act: Act, r: Request, ghost was: Client, ghost before: seq<Step>) returns (ghost steps: seq<Step>)
      requires Valid() && |was.slots| == SLOTS && Runs(was, before, State()) && Invariant(State())
      requires k < |requests| && Ready(requests[k], act) && Alone(act)
      requires r == Changed(requests[k], act, closing.Open?)
      modifies `requests, `wild
      ensures requests == old(requests)[k := r]
      ensures Runs(was, steps, State()) && Invariant(State())
    {
      ghost var mid := State();
      requests := requests[k := r];
      wild := mid.wild || Strays(mid, On(k, act));
      hide Invariant, Runs, Changed, Strays;
      steps := Took(was, before, mid, On(k, act));
    }

    /** The locked section that takes a request off its slot. */
    method Unlist(k: nat, act: Act, r: Request, ghost was: Client, ghost before: seq<Step>) returns (ghost steps: seq<Step>)
      requires Valid() && |was.slots| == SLOTS && Runs(was, before, State()) && Invariant(State())
      requires k < |requests| && Ready(requests[k], act) && (act.Withdraw? || (act.FailWrite? && !requests[k].seen))
      requires r == Changed(requests[k], act, closing.Open?)
      modifies `requests, `wild, slots
      ensures requests == old(requests)[k := r]
      ensures slots[..] == Lists(old(slots[..]), k, act)
      ensures Runs(was, steps, State()) && Invariant(State())
    {
      ghost var mid := State();
      var h := SlotOf(Sequence(k));
      slots[h] := Without(slots[h], k);
      requests := requests[k := r];
      wild := mid.wild || Strays(mid, On(k, act));
      hide Invariant, Runs, Changed, Strays, SlotOf, Sequence, Without;
      steps := Took(was, before, mid, On(k, act));
    }

    /** clientSendRequest, given whether the encoder succeeds. */
    method SendRequest(encoded: bool) returns (ok: bool, ghost steps: seq<Step>)
      requires Valid() && Invariant(State())
      modifies this, slots
      ensures Valid() && slots == old(slots) && Runs(old(State()), steps, State())
      ensures ok <==> encoded && closing.Open?
      ensures !closing.Open? && !closing.Closed? ==> State() == old(State())
      ensures ok ==>
                var k := |old(requests)|;
                && requests == old(requests) + [NewRequest.(place := Waiting, write := Pending)]
                && slots[..] == Lists(old(slots[..]), k, Act.Register)
                && slots[..][Sequence(k) % 128] == old(slots[..])[Sequence(k) % 128] + [k]
      ensures !ok && (closing.Open? || closing.Closed?) ==>
                && requests == old(requests) + [NewRequest.(write := Over, freed := 1)]
                && slots[..] == old(slots[..])
    {
      hide Runs, Lists;
      ghost var was := State();
      RunsNothing(was);
      steps := [];
      if !(closing.Open? || closing.Closed?) {
        return false, steps;
      }
      var k := |requests|;
      steps := TakeNumber(was, steps);
      hide Invariant, Strays;
      if !encoded {
        steps := Store(k, FailEncoding, NewRequest.(write := Over, freed := 1), was, steps);
        return false, steps;
      }
      ok, steps := Offer(k, was, steps);
      if !ok {
        steps := TurnAway(k, was, steps);
        NewcomerLeaves(was, k);
      }
      TailOfSlot(was.slots, k);
    }

    /** The request goes into the table, is counted and handed to the connection. */
    method Offer(k: nat, ghost was: Client, ghost before: seq<Step>) returns (ok: bool, ghost steps: seq<Step>)
      requires Valid() && |was.slots| == SLOTS && Runs(was, before, State()) && Invariant(State())
      requires k < |requests| && requests[k] == NewRequest
      modifies `requests, `wild, slots
      ensures ok == closing.Open?
      ensures requests == old(requests)[k := NewRequest.(place := Waiting, write := if ok then Pending else Refused)]
      ensures slots[..] == Lists(old(slots[..]), k, Act.Register)
      ensures Runs(was, steps, State()) && Invariant(State())
    {
      hide Runs, Invariant, Strays, Lists;
      ghost var mid := State();
      Register(k);
      steps := Took(was, before, mid, On(k, Act.Register));
      var r := NewRequest.(place := Waiting, write := Counted);
      steps := Store(k, Count, r, was, steps);
      ok := closing.Open?;
      r := r.(write := if ok then Pending else Refused);
      steps := Store(k, Submit, r, was, steps);
    }

    /** The connection has not taken the request: the count is made even, and the request taken back and freed. */
    method TurnAway(k: nat, ghost was: Client, ghost before: seq<Step>) returns (ghost steps: seq<Step>)
      requires Valid() && |was.slots| == SLOTS && Runs(was, before, State()) && Invariant(State())
      requires k < |requests| && requests[k] == NewRequest.(place := Waiting, write := Refused)
      modifies `requests, `wild, slots
      ensures requests == old(requests)[k := NewRequest.(write := Over, freed := 1)]
      ensures slots[..] == Lists(old(slots[..]), k, Withdraw)
      ensures Runs(was, steps, State())
    {
      hide Runs, Invariant, Strays, Lists;
      var r := NewRequest.(place := Waiting, write := Withdrawing);
      steps := Store(k, CountRefused, r, was, before);
      r := r.(place := Outside, write := Withdrawn);
      steps := Unlist(k, Withdraw, r, was, steps);
      r := r.(write := Over, freed := r.freed + 1);
      steps := Store(k, FreeRefused, r, was, steps);
    }

    method TakeNumber(ghost was: Client, ghost before: seq<Step>) returns (ghost steps: seq<Step>)
      requires Valid() && |was.slots| == SLOTS && Runs(was, before, State()) && Invariant(State())
      requires closing.Open? || closing.Closed?
      modifies `entered, `requests
      ensures entered == old(entered) && requests == old(requests) + [NewRequest]
      ensures Runs(was, steps, State()) && Invariant(State())
    {
      hide Invariant, Runs;
      ghost var mid := State();
      entered := entered + 1;
      steps := Took(was, before, mid, Enter);
      mid := State();
      entered, requests := entered - 1, requests + [NewRequest];
      steps := Took(was, steps, mid, Number);
    }

    /** clientWriteCallback. */
    method WriteCallback(k: nat, ok: bool) returns (ghost steps: seq<Step>)
      requires Valid() && Invariant(State()) && k < |requests| && requests[k].write == Pending && (!ok ==> !requests[k].seen)
      modifies this, slots
      ensures Valid() && slots == old(slots) && Runs(old(State()), steps, State())
      ensures var r := old(requests[k]);
              requests == old(requests)[k :=
                if ok then r.(write := Finished, ref := r.ref - 1, freed := One(r.ref == 1))
                else r.(place := GivenUp, write := Finished, called := 1, freed := 1)]
      ensures slots[..] == if ok then old(slots[..]) else Lists(old(slots[..]), k, FailWrite)
    {
      hide Runs;
      ghost var was := State();
      RunsNothing(was);
      var r := requests[k];
      PendingIsUsed(was, k);
      hide Invariant, Lists, Strays, Apply, Honest, First, Sequence, SlotOf, Without, Settled, Exposed;
      if ok {
        steps := PutWritten(k, was);
      } else {
        steps := GiveUpWrite(k, was);
      }
      steps := Store(k, CountWrite, requests[k].(write := Finished), was, steps);
    }

    /** The write is done: one of the two references goes. */
    method PutWritten(k: nat, ghost was: Client) returns (ghost steps: seq<Step>)
      requires Valid() && was == State() && Invariant(State()) && k < |requests| && requests[k].write == Pending
      modifies `requests, `wild
      ensures var r := old(requests[k]);
              requests == old(requests)[k := r.(write := Uncounted, ref := r.ref - 1, freed := r.freed + One(r.ref == 1))]
      ensures Runs(was, steps, State()) && Invariant(State())
    {
      hide Runs, Invariant, Strays, Apply;
      RunsNothing(was);
      var r := requests[k];
      var left := r.ref - 1;
      r := r.(write := Uncounted, ref := left, freed := if left == 0 then r.freed + 1 else r.freed);
      steps := Store(k, FinishWrite, r, was, []);
    }

    /** The write has failed: off the table, called back, freed. */
    method GiveUpWrite(k: nat, ghost was: Client) returns (ghost steps: seq<Step>)
      requires Valid() && was == State() && Invariant(State()) && k < |requests| && requests[k].write == Pending && !requests[k].seen
      modifies `requests, `wild, slots
      ensures var r := old(requests[k]);
              requests == old(requests)[k := r.(place := GivenUp, write := Uncounted, called := r.called + 1, freed := r.freed + 1)]
      ensures slots[..] == Lists(old(slots[..]), k, FailWrite)
      ensures Runs(was, steps, State()) && Invariant(State())
    {
      hide Runs, Invariant, Lists, Strays, Apply, First, Sequence, SlotOf, Without, Settled, Exposed;
      RunsNothing(was);
      var r := requests[k].(place := GivenUp, write := Unlinked);
      steps := Unlist(k, FailWrite, r, was, []);
      r := r.(write := Told, called := r.called + 1);
      steps := Store(k, TellFailed, r, was, steps);
      r := r.(write := Uncounted, freed := r.freed + 1);
      steps := Store(k, FreeFailed, r, was, steps);
    }

    /** clientDoJob, with a callback that leaves the response to the worker. */
    method DoJob(k: nat) returns (ghost steps: seq<Step>)
      requires Valid() && Invariant(State()) && k < |requests| && requests[k].place == Answered && requests[k].answer == Queued
      modifies this
      ensures Valid() && slots == old(slots) && Runs(old(State()), steps, State())
      ensures var r := old(requests[k]);
              requests == old(requests)[k := r.(answer := Released, called := 1, ref := r.ref - 1, freed := One(r.ref == 1))]
    {
      hide Runs;
      ghost var was := State();
      RunsNothing(was);
      var r := requests[k];
      PendingIsUsed(was, k);
      hide Invariant, Strays, Apply, Honest, First, Sequence, SlotOf, Settled, Exposed;
      r := r.(answer := Running, called := r.called + 1);
      steps := Store(k, Call, r, was, []);
      r := r.(answer := Unbuffered);
      steps := Store(k, LetGo, r, was, steps);
      var left := r.ref - 1;
      r := r.(answer := Released, ref := left, freed := if left == 0 then r.freed + 1 else r.freed);
      steps := Store(k, Release, r, was, steps);
    }

    /** The rest of clientOnClose, once it has waited: the context is freed, and every request still in the
        table is called back and freed, slot by slot, front to back. */
    method SweepAll() returns (called: seq<nat>, ghost steps: seq<Step>)
      requires Valid() && Invariant(State()) && Enabled(State(), Wait) && !Exposed(State())
      modifies this, slots
      ensures Valid() && slots == old(slots) && Runs(old(State()), steps, State()) && Invariant(State())
      ensures called == Joined(old(slots[..])) && closing == Returned && |requests| == |old(requests)|
      ensures forall h :: 0 <= h < SLOTS ==> slots[h] == []
      ensures forall k :: 0 <= k < |requests| ==> requests[k] == Swept(old(requests[k]), k in called)
    {
      hide Runs, Invariant;
      ghost var was := State();
      RunsNothing(was);
      called := [];
      closing := Sweeping(0);
      steps := Took(was, [], was, Wait);
      for h := 0 to SLOTS
        invariant Valid() && slots == old(slots) && Runs(was, steps, State()) && Invariant(State())
        invariant closing == Sweeping(h) && |requests| == |was.requests|
        invariant called == Joined(was.slots[..h])
        invariant forall g :: h <= g < SLOTS ==> slots[g] == was.slots[g]
        invariant forall k :: 0 <= k < |requests| ==> requests[k] == Swept(was.requests[k], k in called)
      {
        ghost var list := slots[h];
        called, steps := SweepSlot(h, called, was, steps);
        assert was.slots[..h + 1][..h] == was.slots[..h] && was.slots[..h + 1][h] == list;
      }
      assert was.slots[..SLOTS] == was.slots;
      ghost var mid := State();
      closing := Returned;
      steps := Took(was, steps, mid, Return);
      AllEmpty(State());
    }

    /** One slot, under its lock. */
    method SweepSlot(h: nat, before: seq<nat>, ghost was: Client, ghost past: seq<Step>) returns (called: seq<nat>, ghost steps: seq<Step>)
      requires Valid() && |was.slots| == SLOTS && Runs(was, past, State()) && Invariant(State())
      requires h < SLOTS && closing == Sweeping(h) && |requests| == |was.requests|
      requires forall k :: 0 <= k < |requests| ==> requests[k] == Swept(was.requests[k], k in before)
      modifies `requests, `wild, `closing, slots
      ensures Runs(was, steps, State()) && Invariant(State()) && closing == Sweeping(h + 1) && |requests| == |was.requests|
      ensures called == before + old(slots[h])
      ensures forall g :: h < g < SLOTS ==> slots[g] == old(slots[g])
      ensures forall k :: 0 <= k < |requests| ==> requests[k] == Swept(was.requests[k], k in called)
    {
      hide Runs, Invariant;
      called, steps := before, past;
      while slots[h] != []
        invariant Runs(was, steps, State()) && Invariant(State()) && closing == Sweeping(h) && |requests| == |was.requests|
        invariant called + slots[h] == before + old(slots[h])
        invariant forall g :: h < g < SLOTS ==> slots[g] == old(slots[g])
        invariant forall k :: 0 <= k < |requests| ==> requests[k] == Swept(was.requests[k], k in called)
        decreases |slots[h]|
      {
        ghost var list := slots[h];
        var k;
        k, steps := SweepFirst(h, was, steps);
        assert called + list == (called + [k]) + slots[h];
        called := called + [k];
      }
      ghost var mid := State();
      closing := Sweeping(h + 1);
      steps := Took(was, steps, mid, NextSlot);
    }

    method SweepFirst(h: nat, ghost was: Client, ghost past: seq<Step>) returns (k: nat, ghost steps: seq<Step>)
      requires Valid() && |was.slots| == SLOTS && Runs(was, past, State()) && Invariant(State())
      requires h < SLOTS && closing == Sweeping(h) && slots[h] != []
      modifies `requests, `wild, slots
      ensures Runs(was, steps, State()) && Invariant(State())
      ensures k == old(slots[h])[0] < |requests| == |old(requests)| && slots[..] == old(slots[..])[h := old(slots[h])[1..]]
      ensures requests == old(requests)[k := Swept(old(requests[k]), true)] && old(requests[k]).called == 0
    {
      ghost var mid := State();
      SweepApplies(mid);
      hide Invariant, Runs, Strays, Apply, Enabled;
      k := slots[h][0];
      slots[h] := slots[h][1..];
      var r := requests[k];
      requests := requests[k := r.(place := GivenUp, called := r.called + 1, freed := r.freed + 1)];
      wild := Apply(mid, Sweep).wild;
      steps := Took(was, past, mid, Sweep);
    }
  }

  /** What a lookup makes of the first request with the number. */
  lemma MatchApplies(c: Client, sequence: nat, i: nat)
    requires Invariant(c) && !Gone(c) && c.taken.None? && i < |c.slots[SlotOf(sequence)]|
    requires var list := c.slots[SlotOf(sequence)];
             First(list, sequence) == Some(list[i]) && forall j :: 0 <= j < i ==> Sequence(list[j]) != sequence
    ensures Enabled(c, Match(sequence))
    ensures var h := SlotOf(sequence);
            var list := c.slots[h];
            && list[i] < |c.requests|
            && Apply(c, Match(sequence)) == c.(requests := c.requests[list[i] := c.requests[list[i]].(place := Taken, seen := true)],
                                               slots := c.slots[h := list[..i] + list[i + 1..]],
                                               taken := Some(list[i]), wild := Apply(c, Match(sequence)).wild)
  {
    var list := c.slots[SlotOf(sequence)];
    Stands(c, SlotOf(sequence), list[i]);
    WithoutAt(list, i);
    hide Invariant, First, Without, Strays;
  }

  /** What the sweep makes of the first request of its slot. */
  lemma SweepApplies(c: Client)
    requires Invariant(c) && c.closing.Sweeping? && c.closing.h < SLOTS && c.slots[c.closing.h] != []
    ensures Enabled(c, Sweep) && Honest(c, Sweep)
    ensures var h := c.closing.h;
            var k := c.slots[h][0];
            && k < |c.requests| && c.requests[k].called == 0 && c.requests[k].freed == 0
            && Apply(c, Sweep) == c.(requests := c.requests[k := c.requests[k].(place := GivenUp, called := 1, freed := 1)],
                                     slots := c.slots[h := c.slots[h][1..]], wild := Apply(c, Sweep).wild)
  {
    hide Sequence, SlotOf, First, Strays, Quiet;
    var k := c.slots[c.closing.h][0];
    Stands(c, c.closing.h, k);
    assert Accounted(c.requests[k]);
  }

  /** A request with something still to come is neither freed nor, before its answer, called back. */
  lemma PendingIsUsed(c: Client, k: nat)
    requires Invariant(c) && k < |c.requests| && (c.requests[k].write == Pending || (c.requests[k].place == Answered && c.requests[k].answer == Queued))
    ensures c.requests[k].freed == 0
    ensures c.requests[k].place == Answered && c.requests[k].answer == Queued ==> c.requests[k].called == 0
    ensures c.requests[k].write == Pending && !c.requests[k].seen ==> c.requests[k].called == 0
  {
    assert Accounted(c.requests[k]);
  }

  /** A request that has just been listed leaves its slot as it was. */
  lemma NewcomerLeaves(c: Client, k: nat)
    requires Invariant(c) && k == |c.requests|
    ensures Lists(Lists(c.slots, k, Act.Register), k, Withdraw) == c.slots
  {
    var h := SlotOf(Sequence(k));
    Stands(c, h, k);
    AppendedLeaves(c.slots[h], k);
  }

  lemma {:induction false} AppendedLeaves(slot: seq<nat>, k: nat)
    requires k !in slot
    ensures Without(slot + [k], k) == slot
  {
    if slot != [] {
      AppendedLeaves(slot[1..], k);
      assert (slot + [k])[1..] == slot[1..] + [k];
    }
  }

  function Swept(r: Request, found: bool): Request {
    if found then r.(place := GivenUp, called := 1, freed := 1) else r
  }

  function Joined(lists: seq<seq<nat>>): seq<nat> {
    if lists == [] then [] else Joined(lists[..|lists| - 1]) + lists[|lists| - 1]
  }

  lemma AllEmpty(c: Client)
    requires Invariant(c) && c.closing.Returned?
    ensures forall h :: 0 <= h < SLOTS ==> c.slots[h] == []
  {
  }

  lemma RunsNothing(c: Client)
    requires |c.slots| == SLOTS
    ensures Runs(c, [], c)
  {
  }
}
