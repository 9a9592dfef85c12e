/** The queues, flags and reference count of one connection (corecode/network/SocketLinux.c and
    ConnectionLinux.c).  Each atomic operation, locked section, kernel call or callback is one step;
    callers, the epoll thread, the two workers, the closer and the kernel interleave freely. */
module Connection {
  import opened Arithmetic
  import opened Bytes

  /** One submitted read or write; `rest` is the part of its buffer not transferred yet. */
  datatype Context = Context(id: nat, rest: bytes)

  /** One callback: a successful read hands over its buffer with the bytes received in it. */
  datatype Callback = Callback(id: nat, ok: bool, data: bytes)

  /** Where the pool thread is inside socketDoRead or socketDoWrite. */
  datatype Worker = Absent | Called | Started | Grabbed | Moving | Leftover | Failing | Leaving

  /** The flag is_reading or is_writing, with the threads that have raised it. */
  datatype Gate = Gate(
    flag: int,
    losers: nat,     // raised the flag, and were not the first
    winners: nat,    // raised it first
    inserting: nat,  // winners that have taken a reference for the job
    jobs: nat)       // times the job stands in the pool's list

  /** The history of one direction; `wire` is every byte the kernel has moved in it. */
  datatype Log = Log(accepted: nat, order: seq<Context>, calls: seq<Callback>, wire: bytes, broken: bool)

  /** One direction of a connection. */
  datatype Side = Side(
    outgoing: bool,
    admitted: seq<Context>,  // calls that have seen the connection open
    counted: seq<Context>,   // calls that have taken a reference for their context
    appended: nat,           // calls whose context is in the queue
    gate: Gate,
    worker: Worker,
    debt: bool,              // the worker has called back and not yet released
    queue: seq<Context>,
    local: seq<Context>,     // what the worker took from the queue
    drained: seq<Context>,   // what the closer took from the queue
    log: Log)

  function NewSide(outgoing: bool): Side {
    Side(outgoing, [], [], 0, Gate(0, 0, 0, 0, 0), Absent, false, [], [], [], Log(0, [], [], [], false))
  }

  datatype Act =
    | Admit(data: bytes)
    | Count(i: nat)
    | Enqueue(i: nat)
    | Raise
    | Wake
    | Lower
    | CountJob
    | InsertJob
    | Pick
    | Drop
    | Grab
    | Check
    | Move(data: bytes, failed: bool)
    | Fail
    | Release
    | PutBack
    | Leave
    | Drain
    | FailDrained

  predicate SideEnabled(s: Side, act: Act, closed: nat) {
    match act
    case Admit(_) => closed == 0
    case Count(i) => i < |s.admitted|
    case Enqueue(i) => i < |s.counted|
    case Raise => s.appended > 0
    case Wake => true
    case Lower => s.gate.losers > 0
    case CountJob => s.gate.winners > 0
    case InsertJob => s.gate.inserting > 0
    // the pool never overlaps two jobs of one hash
    case Pick => s.gate.jobs > 0 && s.worker == Absent
    case Drop => s.worker == Called
    case Grab => s.worker == Started
    case Check => s.worker == Grabbed
    case Move(data, _) =>
      && s.worker == Moving && !s.debt && s.local != [] && |data| <= |s.local[0].rest|
      && (s.outgoing ==> data == s.local[0].rest[..|data|])
    case Fail => s.worker == Failing && !s.debt && s.local != []
    case Release => s.debt
    case PutBack => s.worker == Leftover && !s.debt
    case Leave => !s.debt && (s.worker == Leaving || ((s.worker == Moving || s.worker == Failing) && s.local == []))
    case Drain => closed > 0 && s.drained == []
    case FailDrained => closed > 0 && s.drained != []
  }

  function Without<T>(s: seq<T>, i: nat): seq<T>
    requires i < |s|
  {
    s[..i] + s[i + 1..]
  }

  /** Raising the flag: whoever gets 1 back must insert the job. */
  function Raised(g: Gate): Gate {
    if g.flag + 1 == 1 then g.(flag := g.flag + 1, winners := g.winners + 1)
    else g.(flag := g.flag + 1, losers := g.losers + 1)
  }

  /** The log after one more callback. */
  function Answered(log: Log, id: nat, ok: bool, data: bytes): Log {
    log.(calls := log.calls + [Callback(id, ok, data)])
  }

  /** The kernel asked for one buffer: `data` was transferred before it stopped, `failed` tells whether on an error. */
  function Moved(s: Side, data: bytes, failed: bool): Side
    requires s.local != [] && |data| <= |s.local[0].rest|
  {
    var first := s.local[0];
    var t := s.(log := s.log.(wire := s.log.wire + data));
    if failed then t.(worker := Failing, log := t.log.(broken := true))
    else if data == [] then t.(worker := Leftover)
    else if |data| < |first.rest| && s.outgoing then
      t.(worker := Leftover, local := [first.(rest := first.rest[|data|..])] + s.local[1..])
    else
      t.(local := s.local[1..], debt := true, log := Answered(t.log, first.id, true, if s.outgoing then [] else data),
         worker := if |data| < |first.rest| then Leftover else Moving)
  }

  lemma AnsweredFrame(log: Log, id: nat, ok: bool, data: bytes)
    ensures Answered(log, id, ok, data).accepted == log.accepted
  {
  }

  lemma MovedFrame(s: Side, data: bytes, failed: bool)
    requires s.local != [] && |data| <= |s.local[0].rest|
    ensures var t := Moved(s, data, failed);
            && t.admitted == s.admitted && t.counted == s.counted && t.queue == s.queue && t.drained == s.drained
            && t.log.accepted == s.log.accepted && t.log.order == s.log.order && t.outgoing == s.outgoing && t.gate == s.gate
            && (t.worker == Moving || t.worker == Leftover || t.worker == Failing)

  {
  }

  function SideApply(s: Side, act: Act, closed: nat): Side
    requires SideEnabled(s, act, closed)
  {
    match act
    case Admit(data) =>
      s.(admitted := s.admitted + [Context(s.log.accepted, data)], log := s.log.(accepted := s.log.accepted + 1))
    case Count(i) => s.(admitted := Without(s.admitted, i), counted := s.counted + [s.admitted[i]])
    case Enqueue(i) =>
      s.(counted := Without(s.counted, i), queue := s.queue + [s.counted[i]], appended := s.appended + 1,
         log := s.log.(order := s.log.order + [s.counted[i]]))
    case Raise => s.(appended := s.appended - 1, gate := Raised(s.gate))
    case Wake => s.(gate := Raised(s.gate))
    case Lower => s.(gate := s.gate.(flag := s.gate.flag - 1, losers := s.gate.losers - 1))
    case CountJob => s.(gate := s.gate.(winners := s.gate.winners - 1, inserting := s.gate.inserting + 1))
    case InsertJob => s.(gate := s.gate.(inserting := s.gate.inserting - 1, jobs := s.gate.jobs + 1))
    case Pick => s.(gate := s.gate.(jobs := s.gate.jobs - 1), worker := Called)
    case Drop => s.(gate := s.gate.(flag := s.gate.flag - 1), worker := Started)
    case Grab => s.(local := s.local + s.queue, queue := [], worker := Grabbed)
    case Check => s.(worker := if closed != 0 then Failing else Moving)
    case Move(data, failed) => Moved(s, data, failed)
    case Fail => s.(local := s.local[1..], debt := true, log := Answered(s.log, s.local[0].id, false, []))
    case Release => s.(debt := false)
    case PutBack => s.(queue := s.local + s.queue, local := [], worker := Leaving)
    case Leave => s.(worker := Absent)
    case Drain => s.(drained := s.queue, queue := [])
    case FailDrained => s.(drained := s.drained[1..], log := Answered(s.log, s.drained[0].id, false, []))
  }

  // ---- the flag: at most one job ----

  /** The flag counts every thread that has raised it, and the job until it starts. */
  predicate FlagCounts(s: Side) {
    && s.gate.flag == s.gate.losers + s.gate.winners + s.gate.inserting + s.gate.jobs + One(s.worker == Called)
    && s.gate.winners + s.gate.inserting + s.gate.jobs + One(s.worker == Called) <= 1
  }

  lemma FlagCountsKept(s: Side, act: Act, closed: nat)
    requires FlagCounts(s) && SideEnabled(s, act, closed)
    ensures FlagCounts(SideApply(s, act, closed))
  {
    hide Moved, Answered, Without;
    if act.Move? {
      MovedFrame(s, act.data, act.failed);
    }
  }

  /** A job that has still to take the queue, so that it will find whatever is queued now. */
  predicate JobAhead(s: Side) {
    s.gate.winners + s.gate.inserting + s.gate.jobs > 0 || s.worker == Called || s.worker == Started
  }

  /** A submission is followed by a job exactly if the flag is down, or somebody other than a thread that
      came second holds it up, or the worker has just let go of it. */
  lemma RaiseBringsJob(s: Side, closed: nat)
    requires FlagCounts(s) && s.appended > 0
    ensures JobAhead(SideApply(s, Raise, closed)) <==> s.gate.flag == 0 || s.gate.flag > s.gate.losers || s.worker == Started
  {
    hide Moved, Answered, Without;
  }

  /** Until it takes the queue, the job stays ahead. */
  lemma JobStaysAhead(s: Side, act: Act, closed: nat)
    requires JobAhead(s) && SideEnabled(s, act, closed)
    ensures JobAhead(SideApply(s, act, closed)) || (act.Grab? && SideApply(s, act, closed).queue == [])
  {
    hide Answered, Without;
  }

  // ---- references ----

  /** The references held on behalf of one direction. */
  function Held(s: Side): nat {
    |s.counted| + |s.queue| + |s.local| + |s.drained| + s.gate.inserting + s.gate.jobs + One(s.worker != Absent) + One(s.debt)
  }

  /** What an act does to the reference count; the closer releases for the contexts it drains. */
  function RefChange(act: Act): int {
    match act
    case Count(_) => 1
    case CountJob => 1
    case Release => -1
    case Leave => -1
    case _ => 0
  }

  predicate WorkerTidy(s: Side) {
    && (s.worker == Absent || s.worker == Called || s.worker == Started || s.worker == Leaving ==> s.local == [])
    && (s.debt ==> s.worker == Moving || s.worker == Leftover || s.worker == Failing)
  }

  lemma WorkerTidyKept(s: Side, act: Act, closed: nat)
    requires WorkerTidy(s) && SideEnabled(s, act, closed)
    ensures WorkerTidy(SideApply(s, act, closed))
  {
    match act {
      case Admit(_) =>
      case Count(_) =>
      case Enqueue(_) =>
      case Raise =>
      case Wake =>
      case Lower =>
      case CountJob =>
      case InsertJob =>
      case Pick =>
      case Drop =>
      case Grab =>
      case Check =>
      case Move(_,_) =>
      case Fail =>
      case Release =>
      case PutBack =>
      case Leave =>
      case Drain =>
      case FailDrained =>
    }
  }

  lemma HeldAfter(s: Side, act: Act, closed: nat)
    requires WorkerTidy(s) && SideEnabled(s, act, closed)
    ensures Held(SideApply(s, act, closed)) == Held(s) + RefChange(act) - One(act.FailDrained?)
  {
    hide Answered;
    match act {
      case Count(i) => assert |Without(s.admitted, i)| == |s.admitted| - 1;
      case _ =>
    }
  }

  // ---- every accepted context is in exactly one place ----

  function Ids(s: seq<Context>): seq<nat> {
    seq(|s|, i requires 0 <= i < |s| => s[i].id)
  }

  function CallIds(s: seq<Callback>): seq<nat> {
    seq(|s|, i requires 0 <= i < |s| => s[i].id)
  }

  /** How often one context stands in a list. */
  function Times(s: seq<Context>, id: nat): nat {
    multiset(Ids(s))[id]
  }

  /** How often one context has been called back. */
  function TimesCalled(s: seq<Callback>, id: nat): nat {
    multiset(CallIds(s))[id]
  }

  function Places(s: Side, id: nat): nat {
    Times(s.admitted, id) + Times(s.counted, id) + Times(s.queue, id) + Times(s.local, id) + Times(s.drained, id)
    + TimesCalled(s.log.calls, id)
  }

  predicate InOnePlace(s: Side, id: nat) {
    Places(s, id) == One(id < s.log.accepted)
  }

  lemma TimesEmpty(id: nat)
    ensures Times([], id) == 0
  {
  }

  lemma TimesAppend(a: seq<Context>, b: seq<Context>, id: nat)
    ensures Times(a + b, id) == Times(a, id) + Times(b, id)
  {
    assert Ids(a + b) == Ids(a) + Ids(b);
  }

  lemma TimesOne(c: Context, id: nat)
    ensures Times([c], id) == One(c.id == id)
  {
    assert Ids([c]) == [c.id];
  }

  lemma TimesFirst(s: seq<Context>, id: nat)
    requires s != []
    ensures Times(s, id) == Times(s[1..], id) + One(s[0].id == id)
  {
    assert Ids(s) == [s[0].id] + Ids(s[1..]);
  }

  lemma TimesWithout(s: seq<Context>, i: nat, id: nat)
    requires i < |s|
    ensures Times(s, id) == Times(Without(s, i), id) + One(s[i].id == id)
  {
    assert s == s[..i] + ([s[i]] + s[i + 1..]);
    TimesAppend(s[..i], [s[i]] + s[i + 1..], id);
    TimesAppend([s[i]], s[i + 1..], id);
    TimesAppend(s[..i], s[i + 1..], id);
    TimesOne(s[i], id);
  }

  lemma TimesAnswered(log: Log, id: nat, ok: bool, data: bytes, other: nat)
    ensures TimesCalled(Answered(log, id, ok, data).calls, other) == TimesCalled(log.calls, other) + One(id == other)
  {
    assert CallIds(log.calls + [Callback(id, ok, data)]) == CallIds(log.calls) + [id];
  }

  lemma MovedPlaces(s: Side, data: bytes, failed: bool, id: nat)
    requires s.local != [] && |data| <= |s.local[0].rest|
    ensures var t := Moved(s, data, failed);
            Times(t.local, id) + TimesCalled(t.log.calls, id) == Times(s.local, id) + TimesCalled(s.log.calls, id)
  {
    hide Times, TimesCalled;
    var t, first := Moved(s, data, failed), s.local[0];
    TimesFirst(s.local, id);
    if !failed && data != [] {
      if |data| < |first.rest| && s.outgoing {
        TimesFirst(t.local, id);
      } else {
        TimesAnswered(s.log, first.id, true, if s.outgoing then [] else data, id);
      }
    }
  }

  /** One step moves a context at most from one place to the next. */
  lemma PlaceKept(s: Side, act: Act, closed: nat, id: nat)
    requires SideEnabled(s, act, closed)
    requires WorkerTidy(s) && InOnePlace(s, id)
    ensures InOnePlace(SideApply(s, act, closed), id)
  {
    hide Times, TimesCalled, Moved, Raised, Answered;
    TimesEmpty(id);
    match act {
      case Admit(data) =>
        TimesAppend(s.admitted, [Context(s.log.accepted, data)], id);
        TimesOne(Context(s.log.accepted, data), id);
      case Count(i) =>
        TimesWithout(s.admitted, i, id);
        TimesAppend(s.counted, [s.admitted[i]], id);
        TimesOne(s.admitted[i], id);
      case Enqueue(i) =>
        TimesWithout(s.counted, i, id);
        TimesAppend(s.queue, [s.counted[i]], id);
        TimesOne(s.counted[i], id);
      case Grab => TimesAppend(s.local, s.queue, id);
      case PutBack => TimesAppend(s.local, s.queue, id);
      case Move(data, failed) =>
        MovedPlaces(s, data, failed, id);
        MovedFrame(s, data, failed);
      case Fail =>
        TimesFirst(s.local, id);
        TimesAnswered(s.log, s.local[0].id, false, [], id);
        AnsweredFrame(s.log, s.local[0].id, false, []);
      case FailDrained =>
        TimesFirst(s.drained, id);
        TimesAnswered(s.log, s.drained[0].id, false, [], id);
        AnsweredFrame(s.log, s.drained[0].id, false, []);
      case _ =>
    }
  }

  // ---- what goes through, and in which order ----

  function Flat(s: seq<Context>): bytes {
    if s == [] then [] else s[0].rest + Flat(s[1..])
  }

  /** The contexts called back with success, in the order of the callbacks. */
  function Successes(calls: seq<Callback>): seq<nat> {
    if calls == [] then []
    else
      var before, last := Successes(calls[..|calls| - 1]), calls[|calls| - 1];
      if last.ok then before + [last.id] else before
  }

  /** What the successful callbacks handed over, in the order of the callbacks. */
  function Parts(calls: seq<Callback>): (r: seq<bytes>)
    ensures |r| == |Successes(calls)|
  {
    if calls == [] then []
    else
      var before, last := Parts(calls[..|calls| - 1]), calls[|calls| - 1];
      if last.ok then before + [last.data] else before
  }

  function Joined(parts: seq<bytes>): bytes {
    if parts == [] then [] else Joined(parts[..|parts| - 1]) + parts[|parts| - 1]
  }

  /** Every part is not empty and fits its buffer. */
  predicate Fitting(parts: seq<bytes>, buffers: seq<Context>) {
    |parts| == |buffers| && forall i :: 0 <= i < |parts| ==> 0 < |parts[i]| <= |buffers[i].rest|
  }

  /** `pending` is what comes next in the order of submission; only the first of the outgoing buffers may be cut. */
  predicate Lined(outgoing: bool, log: Log, pending: seq<Context>) {
    var done := |Successes(log.calls)|;
    pending != [] ==>
      && done + |pending| <= |log.order|
      && pending[0].id == log.order[done].id
      && pending[1..] == log.order[done + 1..done + |pending|]
      && (if outgoing then log.wire + Flat(pending) == Flat(log.order[..done + |pending|]) else pending[0] == log.order[done])
  }

  /** Success follows the order of submission.  It never comes before the bytes have gone out, and what was
      received is handed over at once. */
  predicate InOrder(outgoing: bool, log: Log) {
    var done := |Successes(log.calls)|;
    && done <= |log.order|
    && Successes(log.calls) == Ids(log.order[..done])
    && (if outgoing then Flat(log.order[..done]) <= log.wire <= Flat(log.order)
        else Joined(Parts(log.calls)) == log.wire && Fitting(Parts(log.calls), log.order[..done]))
  }

  predicate Streams(s: Side, closed: nat) {
    && InOrder(s.outgoing, s.log)
    && (closed == 0 ==>
          && s.worker != Failing && s.drained == []
          && |Successes(s.log.calls)| + |s.local| + |s.queue| == |s.log.order|
          && Lined(s.outgoing, s.log, s.local + s.queue))
    && (s.worker == Moving ==> Lined(s.outgoing, s.log, s.local))
  }

  lemma {:induction false} FlatAppend(a: seq<Context>, b: seq<Context>)
    ensures Flat(a + b) == Flat(a) + Flat(b)
  {
    if a == [] {
      assert a + b == b;
    } else {
      assert (a + b)[1..] == a[1..] + b;
      FlatAppend(a[1..], b);
    }
  }

  lemma Regroup(wire: bytes, first: bytes, later: bytes, front: bytes)
    requires wire + (first + later) == front + later
    ensures wire + first == front
  {
    assert wire + (first + later) == (wire + first) + later;
    SameTail(wire + first, front, later);
  }

  lemma SameTail(a: bytes, b: bytes, c: bytes)
    requires a + c == b + c
    ensures a == b
  {
    assert |a| == |b|;
    assert a == (a + c)[..|a|] && b == (b + c)[..|b|];
  }

  lemma SuccessesAnswered(log: Log, id: nat, ok: bool, data: bytes)
    ensures var before := Successes(log.calls);
            Successes(Answered(log, id, ok, data).calls) == if ok then before + [id] else before
    ensures var before := Parts(log.calls);
            Parts(Answered(log, id, ok, data).calls) == if ok then before + [data] else before
  {
    assert (log.calls + [Callback(id, ok, data)])[..|log.calls|] == log.calls;
  }

  lemma JoinedOneMore(parts: seq<bytes>, data: bytes)
    ensures Joined(parts + [data]) == Joined(parts) + data
  {
    assert (parts + [data])[..|parts|] == parts;
  }

  /** A longer order of submission changes nothing for what is already lined up. */
  lemma OrderGrows(outgoing: bool, log: Log, pending: seq<Context>, c: Context)
    requires InOrder(outgoing, log) && Lined(outgoing, log, pending)
    ensures var grown := log.(order := log.order + [c]);
            InOrder(outgoing, grown) && Lined(outgoing, grown, pending)
  {
    hide Successes, Ids, Flat;
    var order, grown, done := log.order, log.order + [c], |Successes(log.calls)|;
    assert grown[..done] == order[..done];
    FlatAppend(order, [c]);
    if pending != [] {
      assert grown[done + 1..done + |pending|] == order[done + 1..done + |pending|];
      assert grown[..done + |pending|] == order[..done + |pending|];
    }
  }

  /** A buffer submitted when everything before it is still pending lines up behind. */
  lemma LineGrows(outgoing: bool, log: Log, pending: seq<Context>, c: Context)
    requires InOrder(outgoing, log) && Lined(outgoing, log, pending)
    requires |Successes(log.calls)| + |pending| == |log.order|
    ensures Lined(outgoing, log.(order := log.order + [c]), pending + [c])
  {
    hide Successes, Ids, Flat;
    var order, grown, done := log.order, log.order + [c], |Successes(log.calls)|;
    assert order[..|order|] == order && grown[..|grown|] == grown;
    FlatAppend(order, [c]);
    if pending == [] {
      assert [] + [c] == [c];
    } else {
      var all := pending + [c];
      FlatAppend(pending, [c]);
      assert all[1..] == pending[1..] + [c] == grown[done + 1..|grown|] by {
        assert grown[done + 1..|grown|] == order[done + 1..|order|] + [c];
      }
      assert (log.wire + Flat(pending)) + Flat([c]) == log.wire + (Flat(pending) + Flat([c]));
    }
  }

  /** What the worker took stays lined up without what waits behind it. */
  lemma LinedFront(outgoing: bool, log: Log, a: seq<Context>, b: seq<Context>)
    requires Lined(outgoing, log, a + b)
    ensures Lined(outgoing, log, a)
  {
    hide Successes, Flat;
    if a != [] {
      var done := |Successes(log.calls)|;
      var near, far := done + |a|, done + |a + b|;
      assert a[1..] == (a + b)[1..][..|a| - 1];
      assert b == (a + b)[1..][|a| - 1..];
      assert log.order[..far] == log.order[..near] + b;
      FlatAppend(a, b);
      FlatAppend(log.order[..near], b);
      if outgoing {
        assert (log.wire + Flat(a)) + Flat(b) == log.wire + (Flat(a) + Flat(b));
        SameTail(log.wire + Flat(a), Flat(log.order[..near]), Flat(b));
      }
    }
  }

  lemma FlatFirst(s: seq<Context>)
    requires s != []
    ensures Flat(s) == s[0].rest + Flat(s[1..])
  {
  }

  /** A cut buffer: what has gone out and what is left still make up the same stream. */
  lemma CutKeepsLine(log: Log, pending: seq<Context>, n: nat)
    requires pending != [] && n <= |pending[0].rest| && InOrder(true, log) && Lined(true, log, pending)
    ensures var sent, first := log.(wire := log.wire + pending[0].rest[..n]), pending[0];
            InOrder(true, sent) && Lined(true, sent, [first.(rest := first.rest[n..])] + pending[1..])
  {
    hide Successes, Flat;
    var first, done := pending[0], |Successes(log.calls)|;
    var left := [first.(rest := first.rest[n..])] + pending[1..];
    var wire, upto := log.wire + first.rest[..n], Flat(log.order[..done + |pending|]);
    FlatFirst(pending);
    FlatFirst(left);
    assert left[1..] == pending[1..];
    assert first.rest == first.rest[..n] + first.rest[n..];
    assert wire + Flat(left) == log.wire + Flat(pending);
    FlatPrefix(log.order, done + |pending|);
    assert wire <= upto;
  }

  lemma FlatPrefix(s: seq<Context>, k: nat)
    requires k <= |s|
    ensures Flat(s[..k]) <= Flat(s)
  {
    assert s == s[..k] + s[k..];
    FlatAppend(s[..k], s[k..]);
  }

  /** The order of submission, split behind the buffer that is due. */
  lemma DueSplit(order: seq<Context>, done: nat, pending: seq<Context>)
    requires pending != [] && done + |pending| <= |order| && pending[1..] == order[done + 1..done + |pending|]
    ensures order[..done + |pending|] == order[..done + 1] + pending[1..]
    ensures pending[1..] != [] ==> pending[1] == order[done + 1] && pending[1..][1..] == order[done + 2..done + |pending|]
  {
    if |pending| > 1 {
      assert pending[1] == pending[1..][0] == order[done + 1];
      assert pending[1..][1..] == order[done + 2..done + |pending|];
    }
  }

  /** Once a due buffer has gone out whole, exactly the buffers up to it have. */
  lemma WireUpTo(wire: bytes, order: seq<Context>, done: nat, pending: seq<Context>)
    requires pending != [] && done + |pending| <= |order| && pending[1..] == order[done + 1..done + |pending|]
    requires wire + Flat(pending) == Flat(order[..done + |pending|])
    ensures wire + pending[0].rest == Flat(order[..done + 1])
  {
    hide Flat;
    FlatFirst(pending);
    DueSplit(order, done, pending);
    var front, later := order[..done + 1], pending[1..];
    FlatAppend(front, later);
    Regroup(wire, pending[0].rest, Flat(later), Flat(front));
  }

  /** A buffer that is finished: its callback is the next one due. */
  lemma FinishKeepsLine(log: Log, pending: seq<Context>)
    requires pending != [] && InOrder(true, log) && Lined(true, log, pending)
    ensures var after := Answered(log.(wire := log.wire + pending[0].rest), pending[0].id, true, []);
            InOrder(true, after) && Lined(true, after, pending[1..])
  {
    hide Successes, Parts, Flat, Ids, Answered;
    var sent := log.(wire := log.wire + pending[0].rest);
    SuccessesAnswered(sent, pending[0].id, true, []);
    AnsweredFields(sent, pending[0].id, true, []);
    OrderOfFinish(true, log, pending);
    WireOfFinish(log, pending);
  }

  /** A buffer received into: its callback is the next one due, and hands over just these bytes. */
  lemma ReceiptKeepsLine(log: Log, pending: seq<Context>, data: bytes)
    requires pending != [] && 0 < |data| <= |pending[0].rest| && InOrder(false, log) && Lined(false, log, pending)
    ensures var after := Answered(log.(wire := log.wire + data), pending[0].id, true, data);
            InOrder(false, after) && Lined(false, after, pending[1..])
  {
    hide Successes, Parts, Flat, Ids, Answered, Joined;
    var got := log.(wire := log.wire + data);
    SuccessesAnswered(got, pending[0].id, true, data);
    AnsweredFields(got, pending[0].id, true, data);
    OrderOfFinish(false, log, pending);
    JoinedOneMore(Parts(log.calls), data);
  }

  lemma AnsweredFields(log: Log, id: nat, ok: bool, data: bytes)
    ensures Answered(log, id, ok, data) == log.(calls := Answered(log, id, ok, data).calls)
  {
  }

  /** The buffer that is done is the next one in the order of submission. */
  lemma OrderOfFinish(outgoing: bool, log: Log, pending: seq<Context>)
    requires pending != [] && InOrder(outgoing, log) && Lined(outgoing, log, pending)
    ensures var done, order := |Successes(log.calls)|, log.order;
            && done + 1 <= |order| && Ids(order[..done + 1]) == Ids(order[..done]) + [pending[0].id]
            && order[..done + 1] == order[..done] + [order[done]]
            && (pending[1..] != [] ==> pending[1] == order[done + 1] && pending[1..][1..] == order[done + 2..done + |pending|])
  {
    hide Successes, Flat;
    var done, order := |Successes(log.calls)|, log.order;
    assert order[..done + 1] == order[..done] + [order[done]];
    DueSplit(order, done, pending);
  }

  /** With its bytes out, the wire ends where the next one begins. */
  lemma WireOfFinish(log: Log, pending: seq<Context>)
    requires pending != [] && Lined(true, log, pending)
    ensures var done, order, wire := |Successes(log.calls)|, log.order, log.wire + pending[0].rest;
            && done + |pending| <= |order|
            && wire == Flat(order[..done + 1]) && wire <= Flat(order)
            && wire + Flat(pending[1..]) == Flat(order[..done + |pending|])
  {
    hide Successes, Flat;
    var done, order := |Successes(log.calls)|, log.order;
    DueSplit(order, done, pending);
    WireUpTo(log.wire, order, done, pending);
    FlatAppend(order[..done + 1], pending[1..]);
    FlatPrefix(order, done + 1);
  }

  lemma MoveKeepsStreams(s: Side, data: bytes, closed: nat)
    requires SideEnabled(s, Move(data, false), closed) && Streams(s, closed)
    ensures Streams(Moved(s, data, false), closed)
  {
    hide Lined, InOrder, Successes, Answered;
    if data == [] {
      assert s.log.wire + data == s.log.wire;
    } else if |data| < |s.local[0].rest| && s.outgoing {
      CutKeepsStreams(s, data, closed);
    } else {
      TurnKeepsStreams(s, data, closed);
    }
  }

  lemma CutKeepsStreams(s: Side, data: bytes, closed: nat)
    requires SideEnabled(s, Move(data, false), closed) && Streams(s, closed)
    requires s.outgoing && 0 < |data| < |s.local[0].rest|
    ensures Streams(Moved(s, data, false), closed)
  {
    hide Lined, InOrder, Successes;
    var first, all, n := s.local[0], s.local + s.queue, |data|;
    CutKeepsLine(s.log, s.local, n);
    if closed == 0 {
      CutKeepsLine(s.log, all, n);
      var cut := [first.(rest := first.rest[n..])];
      assert cut + s.local[1..] + s.queue == cut + all[1..];
    }
  }

  lemma TurnKeepsStreams(s: Side, data: bytes, closed: nat)
    requires SideEnabled(s, Move(data, false), closed) && Streams(s, closed)
    requires 0 < |data| && (s.outgoing ==> |data| == |s.local[0].rest|)
    ensures Streams(Moved(s, data, false), closed)
  {
    var sent, first := s.log.(wire := s.log.wire + data), s.local[0];
    assert s.outgoing ==> data == first.rest;
    TurnMoves(s, data);
    hide Lined, InOrder, Successes, Parts, Moved, Answered;
    TurnKeepsLine(s.outgoing, s.log, s.local, data);
    SuccessesAnswered(sent, first.id, true, if s.outgoing then [] else data);
    if closed == 0 {
      TurnKeepsAll(s, data);
    }
    TurnedStreams(s, Answered(sent, first.id, true, if s.outgoing then [] else data), Moved(s, data, false).worker, closed);
  }

  lemma TurnKeepsAll(s: Side, data: bytes)
    requires s.local != [] && 0 < |data| <= |s.local[0].rest| && (s.outgoing ==> data == s.local[0].rest)
    requires InOrder(s.outgoing, s.log) && Lined(s.outgoing, s.log, s.local + s.queue)
    ensures var after := Answered(s.log.(wire := s.log.wire + data), s.local[0].id, true, if s.outgoing then [] else data);
            Lined(s.outgoing, after, s.local[1..] + s.queue)
  {
    hide Lined, InOrder, Answered;
    TurnKeepsLine(s.outgoing, s.log, s.local + s.queue, data);
    assert (s.local + s.queue)[1..] == s.local[1..] + s.queue;
  }

  lemma TurnedStreams(s: Side, log: Log, worker: Worker, closed: nat)
    requires Streams(s, closed) && s.worker != Failing && s.local != [] && worker != Failing && log.order == s.log.order
    requires InOrder(s.outgoing, log) && Lined(s.outgoing, log, s.local[1..])
    requires |Successes(log.calls)| == |Successes(s.log.calls)| + 1
    requires closed == 0 ==> Lined(s.outgoing, log, s.local[1..] + s.queue)
    ensures Streams(s.(local := s.local[1..], debt := true, log := log, worker := worker), closed)
  {
    hide Lined, InOrder, Successes;
  }

  lemma TurnMoves(s: Side, data: bytes)
    requires s.local != [] && 0 < |data| <= |s.local[0].rest| && (s.outgoing ==> |data| == |s.local[0].rest|)
    ensures var t, log := Moved(s, data, false), Answered(s.log.(wire := s.log.wire + data), s.local[0].id, true, if s.outgoing then [] else data);
            && t == s.(local := s.local[1..], debt := true, log := log, worker := t.worker)
            && (t.worker == Moving || t.worker == Leftover) && log.order == s.log.order
  {
  }

  lemma TurnKeepsLine(outgoing: bool, log: Log, pending: seq<Context>, data: bytes)
    requires pending != [] && 0 < |data| <= |pending[0].rest| && InOrder(outgoing, log) && Lined(outgoing, log, pending)
    requires outgoing ==> data == pending[0].rest
    ensures var after := Answered(log.(wire := log.wire + data), pending[0].id, true, if outgoing then [] else data);
            InOrder(outgoing, after) && Lined(outgoing, after, pending[1..])
  {
    if outgoing {
      FinishKeepsLine(log, pending);
    } else {
      ReceiptKeepsLine(log, pending, data);
    }
  }

  lemma MoveBreaks(s: Side, data: bytes, failed: bool)
    requires s.local != [] && |data| <= |s.local[0].rest|
    ensures Moved(s, data, failed).log.broken == (s.log.broken || failed)
  {
  }

  lemma NothingLined(outgoing: bool, log: Log)
    ensures Lined(outgoing, log, [])
  {
  }

  lemma AdmissionKeeps(outgoing: bool, log: Log, pending: seq<Context>)
    requires InOrder(outgoing, log)
    ensures var more := log.(accepted := log.accepted + 1);
            InOrder(outgoing, more) && (Lined(outgoing, log, pending) ==> Lined(outgoing, more, pending))
  {
  }

  /** While no transfer has failed, every step keeps the stream in order. */
  lemma StreamsKept(s: Side, act: Act, closed: nat)
    requires SideEnabled(s, act, closed) && WorkerTidy(s)
    requires s.log.broken || Streams(s, closed)
    ensures var t := SideApply(s, act, closed); t.log.broken || Streams(t, closed)
  {
    hide Lined, InOrder, Successes, Raised, Moved;
    var t := SideApply(s, act, closed);
    if s.log.broken || t.log.broken || (act.Move? && act.failed) {
      if act.Move? {
        MoveBreaks(s, act.data, act.failed);
      }
    } else {
      match act {
        case Admit(_) =>
          AdmissionKeeps(s.outgoing, s.log, s.local);
          AdmissionKeeps(s.outgoing, s.log, s.local + s.queue);
        case Enqueue(i) =>
          var c := s.counted[i];
          NothingLined(s.outgoing, s.log);
          OrderGrows(s.outgoing, s.log, if s.worker == Moving then s.local else [], c);
          if closed == 0 {
            LineGrows(s.outgoing, s.log, s.local + s.queue, c);
            assert s.local + s.queue + [c] == s.local + (s.queue + [c]);
          }
        case Grab => assert t.local + t.queue == s.local + s.queue;
        case Check =>
          if closed == 0 {
            LinedFront(s.outgoing, s.log, s.local, s.queue);
          }
        case Move(data, _) => MoveKeepsStreams(s, data, closed);
        case PutBack => assert t.local + t.queue == s.local + s.queue;
        case Fail => FailureKeeps(s.outgoing, s.log, s.local[0].id, s.local);
        case FailDrained => FailureKeeps(s.outgoing, s.log, s.drained[0].id, s.local);
        case _ =>
      }
    }
  }

  lemma FailureKeeps(outgoing: bool, log: Log, id: nat, pending: seq<Context>)
    requires InOrder(outgoing, log)
    ensures InOrder(outgoing, Answered(log, id, false, []))
    ensures Lined(outgoing, log, pending) ==> Lined(outgoing, Answered(log, id, false, []), pending)
  {
    hide Flat, Ids, Successes, Parts, Joined;
    SuccessesAnswered(log, id, false, []);
  }

  // ---- the whole connection ----

  datatype Direction = Reading | Writing

  /** How far the thread that closed first has come. */
  datatype Closer = Open | ToDrain(d: Direction) | Draining(d: Direction) | Announcing | Releasing | Gone

  datatype Conn = Conn(
    reading: Side, writing: Side, ref: int, closed: nat, closer: Closer, closerDebt: bool,
    announced: nat,  // calls of onClose
    destroyed: nat)  // times the last reference was released

  const NewConn := Conn(NewSide(false), NewSide(true), 1, 0, Open, false, 0, 0)

  datatype Step =
    | On(d: Direction, act: Act)
    | Close
    | DrainQueue
    | FailNext
    | ReleaseNext
    | Drained
    | Announce
    | ReleaseLast

  function At(c: Conn, d: Direction): Side {
    if d.Reading? then c.reading else c.writing
  }

  function Put(c: Conn, d: Direction, s: Side): Conn {
    if d.Reading? then c.(reading := s) else c.(writing := s)
  }

  /** socketIODone: releases one reference, and destroys the connection with the last one. */
  function Done(c: Conn): Conn {
    c.(ref := c.ref - 1, destroyed := if c.ref - 1 == 0 then c.destroyed + 1 else c.destroyed)
  }

  predicate Enabled(c: Conn, step: Step) {
    match step
    case On(d, act) => !act.Drain? && !act.FailDrained? && SideEnabled(At(c, d), act, c.closed)
    case Close => true
    case DrainQueue => c.closer.ToDrain? && SideEnabled(At(c, c.closer.d), Drain, c.closed)
    case FailNext => c.closer.Draining? && !c.closerDebt && SideEnabled(At(c, c.closer.d), FailDrained, c.closed)
    case ReleaseNext => c.closerDebt
    case Drained => c.closer.Draining? && !c.closerDebt && At(c, c.closer.d).drained == []
    case Announce => c.closer.Announcing?
    case ReleaseLast => c.closer.Releasing?
  }

  function Apply(c: Conn, step: Step): Conn
    requires Enabled(c, step)
  {
    match step
    case On(d, act) =>
      var t := Put(c, d, SideApply(At(c, d), act, c.closed));
      if RefChange(act) < 0 then Done(t) else t.(ref := t.ref + RefChange(act))
    case Close => c.(closed := c.closed + 1, closer := if c.closed + 1 == 1 then ToDrain(Reading) else c.closer)
    case DrainQueue =>
      Put(c, c.closer.d, SideApply(At(c, c.closer.d), Drain, c.closed)).(closer := Draining(c.closer.d))
    case FailNext =>
      Put(c, c.closer.d, SideApply(At(c, c.closer.d), FailDrained, c.closed)).(closerDebt := true)
    case ReleaseNext => Done(c.(closerDebt := false))
    case Drained => c.(closer := if c.closer.d.Reading? then ToDrain(Writing) else Announcing)
    case Announce => c.(announced := c.announced + 1, closer := Releasing)
    case ReleaseLast => Done(c.(closer := Gone))
  }

  predicate Runs(c: Conn, steps: seq<Step>, end: Conn)
    decreases |steps|
  {
    if steps == [] then c == end
    else Enabled(c, steps[0]) && Runs(Apply(c, steps[0]), steps[1..], end)
  }

  predicate SideInvariant(s: Side, closed: nat) {
    && FlagCounts(s)
    && WorkerTidy(s)
    && (s.log.broken || Streams(s, closed))
  }

  /** Every reference has its holder, and only what is not closed to the end holds the first one. */
  predicate References(c: Conn) {
    c.ref == Held(c.reading) + Held(c.writing) + One(!c.closer.Gone?) + One(c.closerDebt)
  }

  predicate CloserTidy(c: Conn) {
    && (c.closer.Open? <==> c.closed == 0)
    && (c.reading.drained != [] ==> c.closer == Draining(Reading))
    && (c.writing.drained != [] ==> c.closer == Draining(Writing))
    && (c.closerDebt ==> c.closer.Draining?)
    && c.announced == One(c.closer.Releasing? || c.closer.Gone?)
  }

  ghost predicate Invariant(c: Conn) {
    && SideInvariant(c.reading, c.closed) && SideInvariant(c.writing, c.closed)
    && !c.reading.outgoing && c.writing.outgoing
    && References(c)
    && CloserTidy(c)
    && forall id: nat :: InOnePlace(c.reading, id) && InOnePlace(c.writing, id)
  }

  lemma SideInvariantKept(s: Side, act: Act, closed: nat)
    requires SideInvariant(s, closed) && SideEnabled(s, act, closed)
    ensures SideInvariant(SideApply(s, act, closed), closed)
    ensures SideApply(s, act, closed).outgoing == s.outgoing
    ensures !act.Drain? && !act.FailDrained? ==> SideApply(s, act, closed).drained == s.drained
  {
    FlagCountsKept(s, act, closed);
    WorkerTidyKept(s, act, closed);
    StreamsKept(s, act, closed);
    SideFrame(s, act, closed);
    hide FlagCounts, WorkerTidy, Streams, SideApply;
  }

  lemma SideFrame(s: Side, act: Act, closed: nat)
    requires SideEnabled(s, act, closed)
    ensures SideApply(s, act, closed).outgoing == s.outgoing
    ensures !act.Drain? && !act.FailDrained? ==> SideApply(s, act, closed).drained == s.drained
  {
  }

  lemma ClosedKeepsSide(s: Side, closed: nat)
    requires SideInvariant(s, closed)
    ensures SideInvariant(s, closed + 1)
  {
  }

  lemma ConnKept(c: Conn, step: Step)
    requires Invariant(c) && Enabled(c, step)
    ensures Invariant(Apply(c, step))
  {
    hide SideInvariant, SideApply, SideEnabled, InOnePlace, Held;
    var e := Apply(c, step);
    match step {
      case On(d, act) => {
        SideInvariantKept(At(c, d), act, c.closed);
        HeldKept(At(c, d), act, c.closed);
      }
      case Close =>
        ClosedKeepsSide(c.reading, c.closed);
        ClosedKeepsSide(c.writing, c.closed);
      case DrainQueue =>
        SideInvariantKept(At(c, c.closer.d), Drain, c.closed);
        HeldKept(At(c, c.closer.d), Drain, c.closed);
      case FailNext =>
        SideInvariantKept(At(c, c.closer.d), FailDrained, c.closed);
        HeldKept(At(c, c.closer.d), FailDrained, c.closed);
      case _ =>
    }
    forall id: nat ensures InOnePlace(e.reading, id) && InOnePlace(e.writing, id) {
      PlacesAfter(c, step, id);
    }
  }

  lemma HeldKept(s: Side, act: Act, closed: nat)
    requires SideInvariant(s, closed) && SideEnabled(s, act, closed)
    ensures Held(SideApply(s, act, closed)) == Held(s) + RefChange(act) - One(act.FailDrained?)
  {
    HeldAfter(s, act, closed);
  }

  lemma PlacesAfter(c: Conn, step: Step, id: nat)
    requires Invariant(c) && Enabled(c, step)
    ensures InOnePlace(Apply(c, step).reading, id) && InOnePlace(Apply(c, step).writing, id)
  {
    hide InOnePlace, SideApply, SideEnabled, FlagCounts, Streams, WorkerTidy, References;
    match step {
      case On(d, act) => PlaceKept(At(c, d), act, c.closed, id);
      case DrainQueue => PlaceKept(At(c, c.closer.d), Drain, c.closed, id);
      case FailNext => PlaceKept(At(c, c.closer.d), FailDrained, c.closed, id);
      case _ =>
    }
  }

  lemma NewConnInvariant()
    ensures Invariant(NewConn)
  {
    forall id: nat ensures InOnePlace(NewConn.reading, id) && InOnePlace(NewConn.writing, id) {
      TimesEmpty(id);
    }
  }

  lemma {:induction false} RunKeeps(c: Conn, steps: seq<Step>, end: Conn)
    requires Invariant(c) && Runs(c, steps, end)
    ensures Invariant(end)
    decreases |steps|
  {
    hide Invariant;
    if steps != [] {
      ConnKept(c, steps[0]);
      RunKeeps(Apply(c, steps[0]), steps[1..], end);
    }
  }

  /** After any run, each direction: every accepted context is in exactly one place, so it has been called
      back at most once; the job stands in the pool's list at most once; and the references are exactly
      one for not being closed, one for each unfinished context and one for each queued or running job. */
  lemma EveryContextOnce(steps: seq<Step>, end: Conn, d: Direction, id: nat)
    requires Runs(NewConn, steps, end)
    ensures var s := At(end, d);
            && Places(s, id) == (if id < s.log.accepted then 1 else 0)
            && TimesCalled(s.log.calls, id) <= 1
            && s.gate.jobs <= 1
    ensures References(end) && end.ref >= 0
  {
    NewConnInvariant();
    RunKeeps(NewConn, steps, end);
    assert InOnePlace(end.reading, id) && InOnePlace(end.writing, id);
  }

  /** As long as no write fails, what the kernel got is a prefix of the submitted buffers in queue order;
      the buffers reported as written are the first ones of that order, and all their bytes are out. */
  lemma WritesInOrder(steps: seq<Step>, end: Conn)
    requires Runs(NewConn, steps, end) && !end.writing.log.broken
    ensures var log, written := end.writing.log, Successes(end.writing.log.calls);
            && log.wire <= Flat(log.order)
            && |written| <= |log.order|
            && written == Ids(log.order[..|written|])
            && Flat(log.order[..|written|]) <= log.wire
  {
    NewConnInvariant();
    RunKeeps(NewConn, steps, end);
    hide InOnePlace, FlagCounts, Held;
  }

  /** As long as no read fails, the buffers called back are the first ones submitted, in that order; each of them
      is handed over with at least one byte, and all of them together with exactly the bytes the kernel has
      delivered, in order.  Whatever still waits to be read into is a whole buffer. */
  lemma ReadsInOrder(steps: seq<Step>, end: Conn)
    requires Runs(NewConn, steps, end) && !end.reading.log.broken
    ensures var log, k := end.reading.log, |Successes(end.reading.log.calls)|;
            && k <= |log.order| && Successes(log.calls) == Ids(log.order[..k])
            && Joined(Parts(log.calls)) == log.wire
            && (forall i :: 0 <= i < k ==> 0 < |Parts(log.calls)[i]| <= |log.order[i].rest|)
            && (end.closed == 0 ==> end.reading.local + end.reading.queue == log.order[k..])
  {
    NewConnInvariant();
    RunKeeps(NewConn, steps, end);
    ReadsLined(end);
    hide Invariant, Runs, Joined, Successes, Parts, Ids;
    WaitingWhole(end.reading);
  }

  lemma ReadsLined(c: Conn)
    requires Invariant(c) && !c.reading.log.broken
    ensures InOrder(false, c.reading.log) && !c.reading.outgoing
    ensures c.closed == 0 ==>
              && Lined(false, c.reading.log, c.reading.local + c.reading.queue)
              && |Successes(c.reading.log.calls)| + |c.reading.local| + |c.reading.queue| == |c.reading.log.order|
  {
    hide InOnePlace, FlagCounts, Held, InOrder, Lined;
  }

  lemma WaitingWhole(s: Side)
    ensures var log, all, k := s.log, s.local + s.queue, |Successes(s.log.calls)|;
            Lined(false, log, all) && k + |all| == |log.order| ==> all == log.order[k..]
  {
    hide Successes;
    var log, all, k := s.log, s.local + s.queue, |Successes(s.log.calls)|;
    if Lined(false, log, all) && k + |all| == |log.order| && all != [] {
      assert all == [all[0]] + all[1..] && log.order[k..] == [log.order[k]] + log.order[k + 1..];
      assert log.order[k + 1..] == log.order[k + 1..k + |all|];
    }
  }

  /** A failed callback hands over nothing, and a written buffer is not handed over. */
  predicate NothingHanded(s: Side) {
    forall call :: call in s.log.calls && (s.outgoing || !call.ok) ==> call.data == []
  }

  lemma HandedKept(s: Side, act: Act, closed: nat)
    requires NothingHanded(s) && SideEnabled(s, act, closed)
    ensures NothingHanded(SideApply(s, act, closed))
  {
    hide Raised, Without;
    match act {
      case Move(_,_) =>
      case Fail =>
      case FailDrained =>
      case _ =>
    }
  }

  /** In every run, even after a failure: a failed callback hands over nothing, nor does that of a write. */
  lemma {:induction false} HandedRuns(c: Conn, steps: seq<Step>, end: Conn)
    requires NothingHanded(c.reading) && NothingHanded(c.writing) && Runs(c, steps, end)
    ensures NothingHanded(end.reading) && NothingHanded(end.writing)
    decreases |steps|
  {
    hide NothingHanded, SideApply, SideEnabled;
    if steps != [] {
      match steps[0] {
        case On(d, act) => HandedKept(At(c, d), act, c.closed);
        case DrainQueue => HandedKept(At(c, c.closer.d), Drain, c.closed);
        case FailNext => HandedKept(At(c, c.closer.d), FailDrained, c.closed);
        case _ =>
      }
      HandedRuns(Apply(c, steps[0]), steps[1..], end);
    }
  }

  // ---- the end of a connection ----

  /** No call and no wake-up is using the connection without a reference of its own. */
  predicate Quiet(s: Side) {
    s.admitted == [] && s.appended == 0 && s.gate.losers == 0 && s.gate.winners == 0
  }

  /** What the users of a connection owe it: the last reference goes when none of their calls is under way,
      and nobody wakes or closes a destroyed connection. */
  predicate Careful(c: Conn, step: Step)
    requires Enabled(c, step)
  {
    && (c.destroyed > 0 ==> !step.Close? && !(step.On? && step.act.Wake?))
    && (Apply(c, step).ref == 0 ==> Quiet(Apply(c, step).reading) && Quiet(Apply(c, step).writing))
  }

  predicate RunsCarefully(c: Conn, steps: seq<Step>, end: Conn)
    decreases |steps|
  {
    if steps == [] then c == end
    else Enabled(c, steps[0]) && Careful(c, steps[0]) && RunsCarefully(Apply(c, steps[0]), steps[1..], end)
  }

  ghost predicate Alive(c: Conn) {
    && Invariant(c)
    && c.destroyed == One(c.ref == 0)
    && (c.ref == 0 ==> Quiet(c.reading) && Quiet(c.writing))
  }

  /** Only closing and waking, which need no earlier admission, could still be done. */
  ghost predicate Untouched(c: Conn) {
    forall step: Step :: Enabled(c, step) ==> step.Close? || (step.On? && step.act.Wake?)
  }

  /** With no reference left, nothing is left to be done exactly if no call or wake-up is under way: the rule
      for the users is not stronger than need be. */
  lemma NothingLeft(c: Conn)
    requires Invariant(c) && c.ref == 0
    ensures Untouched(c) <==> Quiet(c.reading) && Quiet(c.writing)
  {
    hide InOnePlace, Streams, WorkerTidy;
    assert c.ref == Held(c.reading) + Held(c.writing) + One(!c.closer.Gone?) + One(c.closerDebt);
    assert Held(c.reading) == 0 && Held(c.writing) == 0 && c.closer.Gone? && !c.closerDebt && c.closed > 0;
    if Quiet(c.reading) && Quiet(c.writing) {
      forall step: Step | Enabled(c, step) ensures step.Close? || (step.On? && step.act.Wake?) {
        if step.On? {
          IdleSide(At(c, step.d), step.act, c.closed);
        }
      }
    } else if !Quiet(c.reading) {
      BusySide(c, Reading);
    } else {
      BusySide(c, Writing);
    }
  }

  lemma IdleSide(s: Side, act: Act, closed: nat)
    requires Quiet(s) && Held(s) == 0 && closed > 0 && SideEnabled(s, act, closed) && !act.Drain? && !act.FailDrained?
    ensures act.Wake?
  {
  }

  /** A call or wake-up under way can go on. */
  lemma BusySide(c: Conn, d: Direction)
    requires !Quiet(At(c, d))
    ensures !Untouched(c)
  {
    var s := At(c, d);
    var act := if s.admitted != [] then Count(0) else if s.appended > 0 then Raise
               else if s.gate.losers > 0 then Lower else CountJob;
    assert Enabled(c, On(d, act));
  }

  lemma AliveKept(c: Conn, step: Step)
    requires Alive(c) && Enabled(c, step) && Careful(c, step)
    ensures Alive(Apply(c, step))
  {
    hide SideApply, SideEnabled, Invariant;
    if c.ref == 0 {
      NothingLeft(c);
      assert false;
    }
    ConnKept(c, step);
    NonNegative(c);
  }

  lemma NonNegative(c: Conn)
    requires Invariant(c)
    ensures c.ref >= 0
  {
  }

  lemma {:induction false} RunKeepsAlive(c: Conn, steps: seq<Step>, end: Conn)
    requires Alive(c) && RunsCarefully(c, steps, end)
    ensures Alive(end)
    decreases |steps|
  {
    hide Alive, Careful;
    if steps != [] {
      AliveKept(c, steps[0]);
      RunKeepsAlive(Apply(c, steps[0]), steps[1..], end);
    }
  }

  /** A connection is destroyed at most once, exactly when the last reference goes; by then it has been
      closed and announced as closed, every accepted context has been called back exactly once, and
      nothing the users may still do is left. */
  lemma DestroyedOnce(steps: seq<Step>, end: Conn)
    requires RunsCarefully(NewConn, steps, end)
    ensures end.destroyed == (if end.ref == 0 then 1 else 0)
    ensures end.destroyed == 1 ==>
              && end.closed > 0 && end.announced == 1
              && (forall d: Direction, id: nat :: id < At(end, d).log.accepted ==> TimesCalled(At(end, d).log.calls, id) == 1)
              && (forall step: Step :: Enabled(end, step) ==> !Careful(end, step))
  {
    NewConnInvariant();
    RunKeepsAlive(NewConn, steps, end);
    if end.destroyed == 1 {
      forall d: Direction, id: nat | id < At(end, d).log.accepted ensures TimesCalled(At(end, d).log.calls, id) == 1 {
        assert InOnePlace(end.reading, id) && InOnePlace(end.writing, id);
        AllCalled(end, d, id);
      }
      forall step: Step | Enabled(end, step) ensures !Careful(end, step) {
        NothingLeft(end);
      }
    }
  }

  /** In any run, careful or not: when the last reference is gone, the connection is closed and announced, and
      nothing will use it any more exactly if the users' rule was kept at that moment. */
  lemma LastReference(steps: seq<Step>, end: Conn)
    requires Runs(NewConn, steps, end) && end.ref == 0
    ensures end.closed > 0 && end.announced == 1
    ensures Untouched(end) <==> Quiet(end.reading) && Quiet(end.writing)
  {
    NewConnInvariant();
    RunKeeps(NewConn, steps, end);
    NothingLeft(end);
    hide InOnePlace, Streams, WorkerTidy;
  }

  // ---- what a worker puts back once the connection is closed ----

  /** The closer has still to take the queue of this direction. */
  predicate DrainToCome(c: Conn, d: Direction) {
    c.closer.Open? || c.closer == ToDrain(d) || (d.Writing? && (c.closer == ToDrain(Reading) || c.closer == Draining(Reading)))
  }

  predicate RunsUnwoken(c: Conn, d: Direction, steps: seq<Step>, end: Conn)
    decreases |steps|
  {
    if steps == [] then c == end
    else Enabled(c, steps[0]) && steps[0] != On(d, Wake) && RunsUnwoken(Apply(c, steps[0]), d, steps[1..], end)
  }

  /** Without a wake-up, a job or the closer can come for the queue. */
  ghost predicate CanServe(c: Conn, d: Direction) {
    exists steps: seq<Step>, end: Conn :: RunsUnwoken(c, d, steps, end) && (JobAhead(At(end, d)) || DrainToCome(end, d))
  }

  predicate CallUnderWay(s: Side) {
    s.admitted != [] || s.counted != [] || s.appended > 0
  }

  /** Nobody but a wake-up will come for the queue. */
  predicate Forgotten(c: Conn, d: Direction) {
    && !JobAhead(At(c, d)) && !DrainToCome(c, d) && !CallUnderWay(At(c, d)) && c.closed > 0
    && (At(c, d).worker == Absent || At(c, d).worker == Leaving)
  }

  lemma ForgottenStays(c: Conn, d: Direction, step: Step)
    requires Forgotten(c, d) && Enabled(c, step) && step != On(d, Wake)
    ensures Forgotten(Apply(c, step), d) && At(Apply(c, step), d).queue == At(c, d).queue
  {
    hide Moved, Answered, Raised, Without;
    if step.On? && step.d == d {
      var act := step.act;
      assert act.Lower? || act.Leave? || act.Release?;
    }
  }

  lemma {:induction false} ForgottenRuns(c: Conn, d: Direction, steps: seq<Step>, end: Conn)
    requires Forgotten(c, d) && RunsUnwoken(c, d, steps, end)
    ensures Forgotten(end, d) && At(end, d).queue == At(c, d).queue
    decreases |steps|
  {
    hide Forgotten, Enabled, Apply;
    if steps != [] {
      ForgottenStays(c, d, steps[0]);
      ForgottenRuns(Apply(c, steps[0]), d, steps[1..], end);
    }
  }

  lemma ServeBefore(c: Conn, d: Direction, step: Step)
    requires Enabled(c, step) && step != On(d, Wake) && CanServe(Apply(c, step), d)
    ensures CanServe(c, d)
  {
    hide Enabled, Apply, JobAhead, DrainToCome;
    var steps, end :| RunsUnwoken(Apply(c, step), d, steps, end) && (JobAhead(At(end, d)) || DrainToCome(end, d));
    assert ([step] + steps)[1..] == steps;
    assert RunsUnwoken(c, d, [step] + steps, end);
  }

  lemma ServedAlready(c: Conn, d: Direction)
    requires JobAhead(At(c, d)) || DrainToCome(c, d)
    ensures CanServe(c, d)
  {
    assert RunsUnwoken(c, d, [], c);
  }

  /** How far the foremost call is from raising the flag, and how many stand in its way. */
  function CallLeft(s: Side): nat {
    if s.appended > 0 then s.gate.losers else if s.counted != [] then s.gate.losers + 1 else s.gate.losers + 2
  }

  /** A call under way appends its context, and raises the flag when the others have let go of it. */
  lemma {:induction false} CallServes(c: Conn, d: Direction)
    requires FlagCounts(At(c, d)) && CallUnderWay(At(c, d))
    ensures CanServe(c, d)
    decreases CallLeft(At(c, d))
  {
    var s := At(c, d);
    if JobAhead(s) {
      ServedAlready(c, d);
    } else {
      var act := if s.appended > 0 then (if s.gate.losers > 0 then Lower else Raise)
                 else if s.counted != [] then Enqueue(0) else Count(0);
      CallProgresses(s, act, c.closed);
      FlagCountsKept(s, act, c.closed);
      var e := Apply(c, On(d, act));
      assert At(e, d) == SideApply(s, act, c.closed);
      hide SideApply, SideEnabled, JobAhead, FlagCounts, CallUnderWay, CallLeft;
      if act.Raise? {
        ServedAlready(e, d);
      } else {
        CallServes(e, d);
      }
      ServeBefore(c, d, On(d, act));
    }
  }

  lemma CallProgresses(s: Side, act: Act, closed: nat)
    requires FlagCounts(s) && CallUnderWay(s) && !JobAhead(s)
    requires act == if s.appended > 0 then (if s.gate.losers > 0 then Lower else Raise)
                    else if s.counted != [] then Enqueue(0) else Count(0)
    ensures SideEnabled(s, act, closed)
    ensures act.Raise? ==> JobAhead(SideApply(s, act, closed))
    ensures !act.Raise? ==> CallUnderWay(SideApply(s, act, closed)) && CallLeft(SideApply(s, act, closed)) < CallLeft(s)
  {
    hide Moved, Answered, Without;
  }

  /** What a worker puts back on a closed connection is called back without a wake-up exactly if the closer has
      still to take that queue, a job is ahead, or a call that saw the connection open is still under way. */
  lemma PutBackIsServed(c: Conn, d: Direction)
    requires Invariant(c) && c.closed > 0 && Enabled(c, On(d, PutBack))
    ensures var s := At(c, d);
            CanServe(Apply(c, On(d, PutBack)), d) <==>
              DrainToCome(c, d) || s.gate.winners + s.gate.inserting + s.gate.jobs > 0 || CallUnderWay(s)
  {
    var s, e := At(c, d), Apply(c, On(d, PutBack));
    assert FlagCounts(At(e, d)) by {
      FlagCountsKept(s, PutBack, c.closed);
    }
    hide InOnePlace, Streams, FlagCounts;
    if DrainToCome(c, d) || s.gate.winners + s.gate.inserting + s.gate.jobs > 0 {
      ServedAlready(e, d);
    } else if CallUnderWay(s) {
      CallServes(e, d);
    } else {
      forall steps: seq<Step>, end: Conn | RunsUnwoken(e, d, steps, end) ensures !JobAhead(At(end, d)) && !DrainToCome(end, d) {
        ForgottenRuns(e, d, steps, end);
      }
    }
  }

  /** Otherwise it stays in the queue, and the connection keeps the references, in every such run. */
  lemma PutBackIsForgotten(c: Conn, d: Direction, steps: seq<Step>, end: Conn)
    requires Invariant(c) && c.closed > 0 && Enabled(c, On(d, PutBack)) && At(c, d).local != []
    requires !CanServe(Apply(c, On(d, PutBack)), d) && RunsUnwoken(Apply(c, On(d, PutBack)), d, steps, end)
    ensures At(end, d).queue == At(c, d).local + At(c, d).queue && end.ref > 0
  {
    var e := Apply(c, On(d, PutBack));
    ConnKept(c, On(d, PutBack));
    PutBackIsServed(c, d);
    assert Forgotten(e, d) by {
      hide Invariant;
    }
    ForgottenRuns(e, d, steps, end);
    UnwokenRun(e, d, steps, end);
    RunKeeps(e, steps, end);
    hide InOnePlace, Streams, FlagCounts;
  }

  lemma {:induction false} UnwokenRun(c: Conn, d: Direction, steps: seq<Step>, end: Conn)
    requires RunsUnwoken(c, d, steps, end)
    ensures Runs(c, steps, end)
    decreases |steps|
  {
    hide Enabled, Apply;
    if steps != [] {
      UnwokenRun(Apply(c, steps[0]), d, steps[1..], end);
    }
  }

  lemma AllCalled(c: Conn, d: Direction, id: nat)
    requires Alive(c) && c.ref == 0 && InOnePlace(At(c, d), id)
    ensures TimesCalled(At(c, d).log.calls, id) == One(id < At(c, d).log.accepted)
  {
    hide Streams, FlagCounts, Times, TimesCalled;
    TimesEmpty(id);
    assert Held(c.reading) == 0 && Held(c.writing) == 0;
  }
}
