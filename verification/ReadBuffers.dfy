/** Who holds a read buffer, and how many there may be (corecode/client/Client.c, corecode/server/Server.c).
    The read callback, the workers that release messages, the closer and the kernel interleave freely. */
module ReadBuffers {
  import opened Arithmetic
  import opened Bytes

  /** A live buffer, with the messages inside it that nobody has released yet. */
  datatype Buffer = Buffer(reference: int, messages: nat)

  /** Where the read callback of a connection is. */
  datatype Phase =
    | Idle
    | Parsing(last: nat)
    | Created(last: nat, next: nat)
    | Counting(last: nat, next: nat)
    | Storing(last: nat, next: nat)   // counted, to be parked
    | Arming(last: nat, next: nat)
    | Refused(last: nat, next: nat, drops: nat)
    | Leaving(last: nat)
    | Rejecting(last: nat, drops: nat)

  /** `wild` records that a buffer was touched after it had been freed, or freed under a message.  The server
      keeps the difference of the two counters in one. */
  datatype State = State(
    server: bool, limit: nat, buffers: map<nat, Buffer>, next: nat, readCounter: nat, doneCounter: nat,
    armed: Option<nat>, parked: Option<nat>, phase: Phase, wild: bool)

  function Connected(server: bool, limit: nat): State {
    State(server, limit, map[0 := Buffer(1, 0)], 1, 1, 0, Some(0), None, Idle, false)
  }

  datatype Step =
    | Begin
    | FailRead
    | Deliver
    | Release(b: nat)
    | Same
    | Create
    | DropOld
    | CountNew
    | Park
    | Accept
    | Refuse
    | DropRefused
    | Leave
    | Reject
    | DropRejected
    | Resume(accepted: bool)
    | FreeParked

  predicate Enabled(s: State, step: Step) {
    match step
    case Begin => s.armed.Some? && s.phase.Idle?
    case FailRead => s.armed.Some?
    case Deliver | Same | Create | Reject => s.phase.Parsing?
    case Release(b) => b in s.buffers && s.buffers[b].messages > 0
    case DropOld => s.phase.Created?
    case CountNew => s.phase.Counting?
    case Park => s.phase.Storing?
    case Accept | Refuse => s.phase.Arming?
    case DropRefused => s.phase.Refused?
    case Leave => s.phase.Leaving?
    case DropRejected => s.phase.Rejecting?
    case Resume(_) => s.parked.Some?
    case FreeParked => s.parked.Some?
  }

  /** clientFreeReadBuffer and serverFreeReadBuffer. */
  function Drop(s: State, b: nat): State {
    if b !in s.buffers then s.(wild := true)
    else if s.buffers[b].reference - 1 == 0 then
      s.(buffers := s.buffers - {b}, doneCounter := s.doneCounter + 1, wild := s.wild || s.buffers[b].messages > 0)
    else s.(buffers := s.buffers[b := s.buffers[b].(reference := s.buffers[b].reference - 1)])
  }

  function Take(s: State, b: nat, messages: nat): State {
    if b !in s.buffers then s.(wild := true)
    else
      var buffer := s.buffers[b];
      s.(buffers := s.buffers[b := Buffer(buffer.reference + 1, buffer.messages + messages)])
  }

  function Apply(s: State, step: Step): State
    requires Enabled(s, step)
  {
    match step
    case Begin => Take(s, s.armed.value, 0).(armed := None, phase := Parsing(s.armed.value))
    case FailRead => Drop(s, s.armed.value).(armed := None)
    case Deliver => Take(s, s.phase.last, 1)
    case Release(b) =>
      Drop(s.(buffers := s.buffers[b := s.buffers[b].(messages := s.buffers[b].messages - 1)]), b)
    case Same => s.(phase := Arming(s.phase.last, s.phase.last))
    case Create =>
      s.(buffers := s.buffers[s.next := Buffer(1, 0)], next := s.next + 1, phase := Created(s.phase.last, s.next))
    case DropOld => Drop(s, s.phase.last).(phase := Counting(s.phase.last, s.phase.next))
    case CountNew =>
      var t := s.(readCounter := s.readCounter + 1);
      // the server parks the buffer that reaches the limit instead of reading into it
      if s.server && t.readCounter - t.doneCounter == s.limit then t.(phase := Storing(s.phase.last, s.phase.next))
      else t.(phase := Arming(s.phase.last, s.phase.next))
    case Park => s.(parked := Some(s.phase.next), phase := Leaving(s.phase.last))
    case Accept => s.(armed := Some(s.phase.next), phase := Leaving(s.phase.last))
    case Refuse => s.(phase := Refused(s.phase.last, s.phase.next, if s.server then 2 else 1))
    case DropRefused =>
      Drop(s, s.phase.next).(phase := if s.phase.drops > 1 then Refused(s.phase.last, s.phase.next, s.phase.drops - 1) else Leaving(s.phase.last))
    case Leave => Drop(s, s.phase.last).(phase := Idle)
    case Reject => s.(phase := Rejecting(s.phase.last, 2))
    case DropRejected =>
      Drop(s, s.phase.last).(phase := if s.phase.drops > 1 then Rejecting(s.phase.last, s.phase.drops - 1) else Idle)
    case Resume(accepted) =>
      if accepted then s.(armed := s.parked, parked := None) else Drop(s, s.parked.value).(parked := None)
    case FreeParked => s.(buffers := s.buffers - {s.parked.value}, doneCounter := s.doneCounter + 1, parked := None)
  }

  /** The references the read callback is answerable for. */
  function InCallback(phase: Phase, b: nat): nat {
    match phase
    case Idle => 0
    case Parsing(last) => 2 * One(b == last)
    case Created(last, next) => 2 * One(b == last) + One(b == next)
    case Counting(last, next) => One(b == last) + One(b == next)
    case Storing(last, next) => One(b == last) + One(b == next)
    case Arming(last, next) => One(b == last) + One(b == next)
    case Refused(last, next, _) => One(b == last) + One(b == next)
    case Leaving(last) => One(b == last)
    case Rejecting(last, drops) => drops * One(b == last)
  }

  /** The armed or parked read, and the running callback. */
  function Reading(s: State, b: nat): nat {
    One(s.armed == Some(b)) + One(s.parked == Some(b)) + InCallback(s.phase, b)
  }

  /** A buffer is live exactly as long as somebody holds it, and its count is the number of holders. */
  predicate Counted(s: State, b: nat) {
    if b in s.buffers then s.buffers[b].reference == Reading(s, b) + s.buffers[b].messages && s.buffers[b].reference > 0
    else Reading(s, b) == 0
  }

  /** There is at most one read at a time: armed, parked, or being handled. */
  predicate OneRead(s: State) {
    One(s.armed.Some?) + One(s.parked.Some?) + One(!s.phase.Idle? && !s.phase.Leaving?) <= 1
  }

  /** A new buffer has been created and not been given to a read yet. */
  predicate HasCreated(phase: Phase) {
    phase.Created? || phase.Counting? || phase.Storing?
  }

  predicate Tidy(s: State) {
    && !s.wild
    && OneRead(s)
    && (s.parked.Some? ==> s.server)
    && (HasCreated(s.phase) ==> s.phase.last != s.phase.next) && (s.phase.Storing? ==> s.server)
    && (s.phase.Rejecting? ==> 1 <= s.phase.drops <= 2)
    && (s.phase.Refused? ==> s.phase.drops == 1)
    && s.readCounter - s.doneCounter == |s.buffers| - One(s.phase.Created? || s.phase.Counting?)
    && (forall b :: b in s.buffers ==> b < s.next)
  }

  /** A parked buffer has not been read into, and nobody else holds it. */
  predicate ParkedFresh(s: State) {
    s.parked.Some? ==>
      s.parked.value in s.buffers && s.buffers[s.parked.value].messages == 0 && InCallback(s.phase, s.parked.value) == 0
  }

  /** A buffer just created is not in any list of messages either. */
  predicate CreatedFresh(s: State) {
    HasCreated(s.phase) ==> s.phase.next in s.buffers && s.buffers[s.phase.next].messages == 0
  }

  ghost predicate Invariant(s: State) {
    Tidy(s) && ParkedFresh(s) && CreatedFresh(s) && forall b: nat :: Counted(s, b)
  }

  /** The server drops one reference too many when a read is refused; the client never does. */
  predicate Sound(s: State, step: Step) {
    s.server ==> !step.Refuse?
  }

  /** What a step that changes one count leaves as it was. */
  predicate SameButCount(s: State, t: State) {
    && t.wild == s.wild && t.next == s.next && t.readCounter == s.readCounter && t.server == s.server && t.limit == s.limit
    && t.armed == s.armed && t.parked == s.parked && t.phase == s.phase
    && t.readCounter - t.doneCounter - |t.buffers| == s.readCounter - s.doneCounter - |s.buffers|
    && (forall k :: k in t.buffers ==> k in s.buffers)
  }

  lemma DropFrame(s: State, b: nat)
    requires b in s.buffers && (s.buffers[b].reference == 1 ==> s.buffers[b].messages == 0)
    ensures SameButCount(s, Drop(s, b))
  {
    if s.buffers[b].reference == 1 {
      assert (s.buffers - {b}).Keys == s.buffers.Keys - {b};
      assert |s.buffers - {b}| == |s.buffers| - 1;
    } else {
      assert s.buffers[b := s.buffers[b].(reference := s.buffers[b].reference - 1)].Keys == s.buffers.Keys;
    }
  }

  lemma TakeFrame(s: State, b: nat, messages: nat)
    requires b in s.buffers
    ensures SameButCount(s, Take(s, b, messages))
  {
    assert Take(s, b, messages).buffers.Keys == s.buffers.Keys;
  }

  /** One buffer's count after a drop, and everybody else's. */
  lemma DropCounts(s: State, b: nat, other: nat)
    requires b in s.buffers
    ensures var t := Drop(s, b).buffers;
            if other == b then
              if s.buffers[b].reference == 1 then b !in t
              else b in t && t[b] == s.buffers[b].(reference := s.buffers[b].reference - 1)
            else
              (other in t <==> other in s.buffers) && (other in t ==> t[other] == s.buffers[other])
  {
  }

  lemma CountedByDrop(s: State, step: Step, b: nat)
    requires Invariant(s) && Enabled(s, step) && Sound(s, step) && Drops(step)
    ensures Counted(Apply(s, step), b)
  {
    TouchedIsLive(s, step);
    hide Drop, Take, ParkedFresh, CreatedFresh;
    var at := Touched(s, step).value;
    assert Counted(s, b) && Counted(s, at);
    DropCounts(s, at, b);
    DropFrame(s, at);
    assert Reading(Apply(s, step), b) + One(b == at) == Reading(s, b) by {
      hide Counted;
      ReadingAfterDrop(s, step, b);
    }
    hide Reading, Tidy, Apply, Enabled;
    SameBuffers(s, step);
  }

  lemma SameBuffers(s: State, step: Step)
    requires Enabled(s, step) && Drops(step)
    ensures Apply(s, step).buffers == Drop(s, Touched(s, step).value).buffers
  {
    hide Drop;
  }

  lemma ReadingAfterDrop(s: State, step: Step, b: nat)
    requires Tidy(s) && Enabled(s, step) && Sound(s, step) && Drops(step)
    requires SameButCount(s, Drop(s, Touched(s, step).value))
    ensures Reading(Apply(s, step), b) + One(b == Touched(s, step).value) == Reading(s, b)
  {
    hide Drop, Take;
  }

  lemma CountedByRelease(s: State, step: Step, b: nat)
    requires Invariant(s) && Enabled(s, step) && step.Release?
    ensures Counted(Apply(s, step), b)
  {
    hide Drop, Take, InCallback, Tidy;
    var c := step.b;
    assert Counted(s, b) && Counted(s, c);
    var released := s.(buffers := s.buffers[c := s.buffers[c].(messages := s.buffers[c].messages - 1)]);
    DropCounts(released, c, b);
    DropFrame(released, c);
  }

  lemma CountedByOther(s: State, step: Step, b: nat)
    requires Invariant(s) && Enabled(s, step) && Sound(s, step) && !Drops(step) && !step.Release?
    ensures Counted(Apply(s, step), b)
  {
    hide Drop;
    assert Counted(s, b);
    if step.Begin? || step.Deliver? {
      var at := Touched(s, step).value;
      assert Counted(s, at);
      TakeFrame(s, at, One(step.Deliver?));
    }
  }

  /** The steps that drop one reference and change nothing else about the buffers. */
  predicate Drops(step: Step) {
    step.FailRead? || step.DropOld? || step.DropRefused? || step.Leave? || step.DropRejected? || step == Resume(false)
  }

  /** The buffer whose count a step changes. */
  function Touched(s: State, step: Step): Option<nat>
    requires Enabled(s, step)
  {
    match step
    case Begin | FailRead => s.armed
    case Deliver | DropOld | Leave | DropRejected => Some(s.phase.last)
    case DropRefused => Some(s.phase.next)
    case Release(b) => Some(b)
    case Resume(_) => s.parked
    case _ => None
  }

  lemma TouchedIsLive(s: State, step: Step)
    requires Invariant(s) && Enabled(s, step)
    ensures Touched(s, step).Some? ==> Touched(s, step).value in s.buffers
    ensures Touched(s, step).Some? && !step.Release? ==>
              var buffer := s.buffers[Touched(s, step).value]; buffer.reference > buffer.messages
    ensures step.Release? ==> s.buffers[step.b].reference >= s.buffers[step.b].messages
  {
    var at := Touched(s, step);
    if at.Some? {
      assert Counted(s, at.value);
    }
  }

  lemma TidyByDrop(s: State, step: Step)
    requires Invariant(s) && Enabled(s, step) && Sound(s, step) && Drops(step)
    ensures Tidy(Apply(s, step))
  {
    TouchedIsLive(s, step);
    hide Drop, Take, InCallback, Counted, ParkedFresh, CreatedFresh;
    DropFrame(s, Touched(s, step).value);
  }

  lemma TidyByTake(s: State, step: Step)
    requires Invariant(s) && Enabled(s, step) && (step.Begin? || step.Deliver?)
    ensures Tidy(Apply(s, step))
  {
    TouchedIsLive(s, step);
    hide Drop, Take, InCallback, Counted, ParkedFresh, CreatedFresh;
    TakeFrame(s, Touched(s, step).value, One(step.Deliver?));
  }

  lemma TidyByRelease(s: State, b: nat)
    requires Invariant(s) && Enabled(s, Release(b))
    ensures Tidy(Apply(s, Release(b)))
  {
    TouchedIsLive(s, Release(b));
    hide Drop, Take, InCallback, Counted, CreatedFresh, ParkedFresh;
    var released := s.(buffers := s.buffers[b := s.buffers[b].(messages := s.buffers[b].messages - 1)]);
    assert released.buffers.Keys == s.buffers.Keys;
    DropFrame(released, b);
  }

  lemma TidyByBuffers(s: State, step: Step)
    requires Invariant(s) && Enabled(s, step) && (step.Create? || step.FreeParked?)
    ensures Tidy(Apply(s, step))
  {
    if step.Create? {
      assert Counted(s, s.phase.last);
      assert s.phase.last in s.buffers;
    }
    hide Drop, Take, InCallback, Counted, CreatedFresh;
    if step.Create? {
      assert Apply(s, step).buffers.Keys == s.buffers.Keys + {s.next};
    } else {
      assert Apply(s, step).buffers.Keys == s.buffers.Keys - {s.parked.value};
    }
  }

  lemma TidyKept(s: State, step: Step)
    requires Invariant(s) && Enabled(s, step) && Sound(s, step)
    ensures Tidy(Apply(s, step))
  {
    hide Drop, Take, InCallback, Counted, CreatedFresh, ParkedFresh;
    if Drops(step) {
      TidyByDrop(s, step);
    } else if step.Begin? || step.Deliver? {
      TidyByTake(s, step);
    } else if step.Release? {
      TidyByRelease(s, step.b);
    } else if step.Create? || step.FreeParked? {
      TidyByBuffers(s, step);
    } else {
      assert OneRead(Apply(s, step));
    }
  }

  lemma FreshKept(s: State, step: Step)
    requires Invariant(s) && Enabled(s, step) && Sound(s, step)
    ensures ParkedFresh(Apply(s, step)) && CreatedFresh(Apply(s, step))
  {
    TouchedIsLive(s, step);
    var at, t := Touched(s, step), Apply(s, step);
    if s.parked.Some? {
      assert Counted(s, s.parked.value);
    }
    if HasCreated(s.phase) {
      assert Counted(s, s.phase.next);
    }
  }

  lemma StateKept(s: State, step: Step)
    requires Invariant(s) && Enabled(s, step) && Sound(s, step)
    ensures Invariant(Apply(s, step))
  {
    TidyKept(s, step);
    FreshKept(s, step);
    hide Tidy, ParkedFresh, CreatedFresh, Counted, Apply, Enabled;
    forall b: nat ensures Counted(Apply(s, step), b) {
      if Drops(step) {
        CountedByDrop(s, step, b);
      } else if step.Release? {
        CountedByRelease(s, step, b);
      } else {
        CountedByOther(s, step, b);
      }
    }
  }

  predicate Runs(s: State, steps: seq<Step>, end: State)
    decreases |steps|
  {
    if steps == [] then s == end
    else Enabled(s, steps[0]) && Runs(Apply(s, steps[0]), steps[1..], end)
  }

  /** Every read of the server is accepted; the client may be refused at any time. */
  predicate SoundRun(server: bool, steps: seq<Step>) {
    server ==> Refuse !in steps
  }

  lemma {:induction false} RunKeeps(s: State, steps: seq<Step>, end: State)
    requires Invariant(s) && Runs(s, steps, end) && SoundRun(s.server, steps)
    ensures Invariant(end)
    decreases |steps|
  {
    if steps != [] {
      assert steps[0] in steps;
      StateKept(s, steps[0]);
      ServerKept(s, steps[0]);
      hide Invariant;
      RunKeeps(Apply(s, steps[0]), steps[1..], end);
    }
  }

  lemma ServerKept(s: State, step: Step)
    requires Enabled(s, step)
    ensures Apply(s, step).server == s.server
  {
  }

  /** After any run of a client, or of a server whose reads are accepted: a buffer is live exactly as long
      as somebody holds it, its count is the number of holders, nothing is touched after it was freed, and
      the two counters differ by the number of live buffers. */
  lemma BuffersAccounted(server: bool, limit: nat, steps: seq<Step>, end: State, b: nat)
    requires Runs(Connected(server, limit), steps, end) && SoundRun(server, steps)
    ensures !end.wild && Counted(end, b)
    ensures end.readCounter - end.doneCounter == |end.buffers| - (if end.phase.Created? || end.phase.Counting? then 1 else 0)
  {
    assert Invariant(Connected(server, limit));
    RunKeeps(Connected(server, limit), steps, end);
  }

  /** When the counters agree, the close handler may go on: no buffer is live, no read is armed, parked or
      being handled, and no message is left to be released. */
  lemma CountersAgreeAtTheEnd(server: bool, limit: nat, steps: seq<Step>, end: State)
    requires Runs(Connected(server, limit), steps, end) && SoundRun(server, steps)
    ensures end.readCounter == end.doneCounter <==> end.buffers == map[]
    ensures end.buffers == map[] ==> end.armed.None? && end.parked.None? && end.phase.Idle?
  {
    assert Invariant(Connected(server, limit));
    RunKeeps(Connected(server, limit), steps, end);
    HeldIsLive(end);
    if end.phase.Created? || end.phase.Counting? {
      assert {end.phase.last, end.phase.next} <= end.buffers.Keys;
      TwoLive(end.buffers.Keys, end.phase.last, end.phase.next);
    }
  }

  lemma TwoLive(live: set<nat>, a: nat, b: nat)
    requires a in live && b in live && a != b
    ensures |live| >= 2
  {
    assert |live - {a}| == |live| - 1 && b in live - {a};
  }

  lemma HeldIsLive(s: State)
    requires Invariant(s)
    ensures s.armed.Some? ==> s.armed.value in s.buffers
    ensures s.parked.Some? ==> s.parked.value in s.buffers
    ensures !s.phase.Idle? ==> s.phase.last in s.buffers
    ensures HasCreated(s.phase) ==> s.phase.next in s.buffers
  {
    if s.armed.Some? {
      assert Counted(s, s.armed.value);
    }
    if s.parked.Some? {
      assert Counted(s, s.parked.value);
    }
    if !s.phase.Idle? {
      assert Counted(s, s.phase.last);
    }
    if HasCreated(s.phase) {
      assert Counted(s, s.phase.next);
    }
  }

  // ---- a refused read on the server ----

  /** The drops to come for a buffer: both of a refused read, one for everybody else who holds it. */
  function DropsToCome(s: State, b: nat): nat {
    if s.phase.Refused? && b == s.phase.next then s.phase.drops + One(b == s.phase.last) else InCallback(s.phase, b)
  }

  /** Reading is over, and more drops of b are to come than its count allows for. */
  predicate Spoilt(s: State, b: nat) {
    && s.armed.None? && s.parked.None?
    && (s.phase.Idle? || s.phase.Leaving? || (s.phase.Refused? && s.phase.drops >= 1))
    && (s.wild || if b in s.buffers then DropsToCome(s, b) + s.buffers[b].messages > s.buffers[b].reference > 0
                  else DropsToCome(s, b) > 0)
  }

  lemma RefusalSpoils(s: State)
    requires Invariant(s) && s.server && s.phase.Arming?
    ensures Spoilt(Apply(s, Refuse), s.phase.next)
  {
    assert Counted(s, s.phase.last) && Counted(s, s.phase.next);
  }

  lemma SpoiltStays(s: State, step: Step, b: nat)
    requires Spoilt(s, b) && Enabled(s, step)
    ensures Spoilt(Apply(s, step), b)
  {
    match step {
      case Release(x) => SpoiltByRelease(s, x, b);
      case DropRefused => SpoiltByDrop(s, DropRefused, b);
      case Leave => SpoiltByDrop(s, Leave, b);
      case _ =>
    }
  }

  lemma SpoiltByRelease(s: State, x: nat, b: nat)
    requires Spoilt(s, b) && Enabled(s, Release(x))
    ensures Spoilt(Apply(s, Release(x)), b)
  {
    hide InCallback;
  }

  lemma SpoiltByDrop(s: State, step: Step, b: nat)
    requires Spoilt(s, b) && Enabled(s, step) && (step.DropRefused? || step.Leave?)
    ensures Spoilt(Apply(s, step), b)
  {
    hide Take;
  }

  lemma {:induction false} SpoiltRuns(s: State, steps: seq<Step>, end: State, b: nat)
    requires Spoilt(s, b) && Runs(s, steps, end)
    ensures Spoilt(end, b)
    decreases |steps|
  {
    hide Spoilt, Apply, Enabled;
    if steps != [] {
      SpoiltStays(s, steps[0], b);
      SpoiltRuns(Apply(s, steps[0]), steps[1..], end, b);
    }
  }

  /** On the server a refused read always spoils the accounts: in every run that goes on from there, whoever
      releases what in between, once both drops have been taken a reference is missing that somebody still
      relies on, or something freed has been touched. */
  lemma ServerRefusalMiscounts(s: State, steps: seq<Step>, end: State)
    requires Invariant(s) && s.server && s.phase.Arming? && Runs(Apply(s, Refuse), steps, end) && !end.phase.Refused?
    ensures end.wild || !Counted(end, s.phase.next)
  {
    RefusalSpoils(s);
    SpoiltRuns(Apply(s, Refuse), steps, end, s.phase.next);
  }

  // ---- the code ----

  /** The read buffers of one connection and the functions that change their references. */
  class BufferTable {
    const server: bool
    const limit: nat
    var buffers: map<nat, Buffer>
    var next: nat
    var readCounter: nat
    var doneCounter: nat
    var armed: Option<nat>
    var parked: Option<nat>
    var phase: Phase

    ghost function Abstract(): State
      reads this
    {
      State(server, limit, buffers, next, readCounter, doneCounter, armed, parked, phase, false)
    }

    constructor (server: bool, limit: nat)
      ensures Abstract() == Connected(server, limit)
    {
      this.server, this.limit := server, limit;
      buffers, next, readCounter, doneCounter := map[0 := Buffer(1, 0)], 1, 1, 0;
      armed, parked, phase := Some(0), None, Idle;
    }

    /** clientFreeReadBuffer and serverFreeReadBuffer, for somebody who holds a reference. */
    method FreeReadBuffer(b: nat)
      requires b in buffers && (buffers[b].reference == 1 ==> buffers[b].messages == 0)
      modifies `buffers, `doneCounter
      ensures Abstract() == Drop(old(Abstract()), b)
    {
      var left := buffers[b].reference - 1;
      if left == 0 {
        buffers := buffers - {b};
        doneCounter := doneCounter + 1;
      } else {
        buffers := buffers[b := buffers[b].(reference := left)];
      }
    }

    /** clientRead and serverRead, with `length` bytes left over at `processed` in a buffer of `size`: go on in
        the same buffer while there is room, otherwise in a new one; the server parks the one that reaches its
        limit.  A client whose read is refused lets go of the buffer; a server would do so twice. */
    method Read(processed: nat, length: nat, size: nat, accepted: bool) returns (ghost steps: seq<Step>)
      requires Invariant(Abstract()) && phase.Parsing? && (server ==> accepted)
      modifies this
      ensures Runs(old(Abstract()), steps, Abstract())
      ensures phase == Leaving(old(phase).last)
      ensures var room := processed + length < size;
              && readCounter == old(readCounter) + One(!room)
              && (parked.Some? ==> !room && parked == Some(old(next)) && server)
              && (server ==> (parked.Some? <==> !room && readCounter - doneCounter == limit))
              && (parked.None? ==> armed == if !accepted then None else if room then Some(old(phase).last) else Some(old(next)))
              && (room && accepted ==> buffers == old(buffers))
    {
      ghost var was := Abstract();
      RunsNothing(was);
      NothingWaits(was);
      steps := [];
      var more := true;
      if processed + length < size {
        phase := Arming(phase.last, phase.last);
        RunsMore(was, [], was, Same);
        StateKept(was, Same);
        steps := [] + [Same];
      } else {
        more, steps := this.NewBuffer();
        RunKeeps(was, steps, Abstract());
      }
      if more {
        hide Runs, Invariant, Drop, Take;
        ghost var mid := Abstract();
        if accepted {
          armed, phase := Some(phase.next), Leaving(phase.last);
          RunsMore(was, steps, mid, Accept);
          steps := steps + [Accept];
        } else {
          steps := Refused(was, steps);
        }
      }
    }

    /** The client's read is refused: nobody will ever hand its buffer to the read callback again. */
    method Refused(ghost was: State, ghost before: seq<Step>) returns (ghost steps: seq<Step>)
      requires Invariant(Abstract()) && phase.Arming? && !server && Runs(was, before, Abstract())
      modifies `buffers, `doneCounter, `phase
      ensures Runs(was, steps, Abstract()) && phase == Leaving(old(phase).last)
    {
      ghost var mid := Abstract();
      NextIsLive(mid);
      hide Runs, Invariant, Drop, Take;
      RunsMore(was, before, mid, Refuse);
      steps := before + [Refuse];
      phase := Phase.Refused(phase.last, phase.next, 1);
      mid := Abstract();
      FreeReadBuffer(phase.next);
      phase := Leaving(phase.last);
      RunsMore(was, steps, mid, DropRefused);
      steps := steps + [DropRefused];
    }

    /** The branch that has run out of room: copy into a new buffer, let go of the old one, count. */
    method NewBuffer() returns (more: bool, ghost steps: seq<Step>)
      requires Invariant(Abstract()) && phase.Parsing?
      modifies this
      ensures Runs(old(Abstract()), steps, Abstract()) && readCounter == old(readCounter) + 1
      ensures Refuse !in steps && armed.None?
      ensures more <==> !(server && readCounter - doneCounter == limit)
      ensures if more then phase == Arming(old(phase).last, old(next)) && parked.None?
              else phase == Leaving(old(phase).last) && parked == Some(old(next)) && server
    {
      ghost var was := Abstract();
      LastIsLive(was);
      NothingWaits(was);
      RunsNothing(was);
      hide Runs, Invariant, Take, InCallback;
      var current, rbuf := phase.last, next;
      buffers, next, phase := buffers[rbuf := Buffer(1, 0)], next + 1, Created(current, rbuf);
      RunsMore(was, [], was, Create);
      steps := [] + [Create];
      ghost var mid := Abstract();
      FreeReadBuffer(current);
      phase := Counting(current, rbuf);
      RunsMore(was, steps, mid, DropOld);
      steps := steps + [DropOld];
      more, steps := CountOrPark(current, rbuf, was, steps);
    }

    /** The rest of it: the new buffer is counted, and parked at the limit. */
    method CountOrPark(current: nat, rbuf: nat, ghost was: State, ghost before: seq<Step>) returns (more: bool, ghost steps: seq<Step>)
      requires phase == Counting(current, rbuf) && Runs(was, before, Abstract())
      modifies `readCounter, `parked, `phase
      ensures Runs(was, steps, Abstract()) && readCounter == old(readCounter) + 1
      ensures before <= steps && (Refuse in steps ==> Refuse in before)
      ensures more <==> !(server && readCounter - doneCounter == limit)
      ensures if more then phase == Arming(current, rbuf) && parked == old(parked)
              else phase == Leaving(current) && parked == Some(rbuf) && server
    {
      hide Runs, Drop, Take, InCallback;
      ghost var mid := Abstract();
      readCounter := readCounter + 1;
      more := !(server && readCounter - doneCounter == limit);
      phase := if more then Arming(current, rbuf) else Storing(current, rbuf);
      RunsMore(was, before, mid, CountNew);
      steps := before + [CountNew];
      if !more {
        mid := Abstract();
        parked, phase := Some(rbuf), Leaving(current);
        RunsMore(was, steps, mid, Park);
        steps := steps + [Park];
      }
    }
  }

  lemma NothingWaits(s: State)
    requires Invariant(s) && s.phase.Parsing?
    ensures s.armed.None? && s.parked.None?
  {
  }

  lemma NextIsLive(s: State)
    requires Invariant(s) && s.phase.Arming?
    ensures s.phase.next in s.buffers && (s.buffers[s.phase.next].reference == 1 ==> s.buffers[s.phase.next].messages == 0)
  {
    assert Counted(s, s.phase.next);
  }

  lemma RunsNothing(s: State)
    ensures Runs(s, [], s)
  {
  }

  lemma {:induction false} RunsMore(s: State, steps: seq<Step>, mid: State, step: Step)
    requires Runs(s, steps, mid) && Enabled(mid, step)
    ensures Runs(s, steps + [step], Apply(mid, step))
    decreases |steps|
  {
    hide Enabled, Apply;
    var all := steps + [step];
    if steps == [] {
      assert all[1..] == [] && all[0] == step;
    } else {
      RunsMore(Apply(s, steps[0]), steps[1..], mid, step);
      assert all[1..] == steps[1..] + [step] && all[0] == steps[0];
    }
  }

  lemma LastIsLive(s: State)
    requires Invariant(s) && s.phase.Parsing?
    ensures s.phase.last in s.buffers && s.buffers[s.phase.last].reference >= 2 && s.next !in s.buffers && s.phase.last != s.next
    ensures s.buffers[s.phase.last].reference > s.buffers[s.phase.last].messages
  {
    assert Counted(s, s.phase.last);
  }
}
