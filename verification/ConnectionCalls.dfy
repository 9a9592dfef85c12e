/** The functions of SocketLinux.c and ConnectionLinux.c themselves, each executed without interference:
    what they do is a run of the step relation of module Connection. */
module ConnectionCalls {
  import opened Arithmetic
  import opened Bytes
  import opened Connection

  /** What one read() or write() call comes back with: a read fills its buffer with `data`, a write takes as
      many bytes as `data` has, either of them no more than it was asked for. */
  datatype Outcome = Room(data: bytes) | Interrupted | WouldBlock | Failed

  datatype Transferred = Transferred(moved: bytes, failed: bool, later: seq<Outcome>)

  /** The bytes that get across for one buffer of `size` bytes before the kernel stops it. */
  function Transfer(size: nat, kernel: seq<Outcome>): (t: Transferred)
    ensures |t.moved| <= size
    decreases |kernel|
  {
    if size == 0 || kernel == [] then Transferred([], false, kernel)
    else
      match kernel[0]
      case Room(data) =>
        if data == [] then Transferred([], true, kernel[1..])
        else
          var now := if |data| < size then data else data[..size];
          var t := Transfer(size - |now|, kernel[1..]);
          t.(moved := now + t.moved)
      case Interrupted => Transfer(size, kernel[1..])
      case WouldBlock => Transferred([], false, kernel[1..])
      case Failed => Transferred([], true, kernel[1..])
  }

  /** All that a row of answers offers. */
  function Offered(answers: seq<Outcome>): bytes {
    if answers == [] then []
    else (if answers[0].Room? then answers[0].data else []) + Offered(answers[1..])
  }

  /** An error, and also no byte at all, which means that the other side has closed. */
  predicate Refuses(answer: Outcome) {
    answer == Failed || answer == Room([])
  }

  function Take(data: bytes, size: nat): bytes {
    if |data| < size then data else data[..size]
  }

  /** The kernel is asked again until the buffer is done, it would block, or it refuses. */
  predicate AskedOn(size: nat, kernel: seq<Outcome>, k: nat) {
    && k <= |kernel|
    && (forall i :: 0 <= i < k - 1 ==> kernel[i] != WouldBlock && !Refuses(kernel[i]))
    && (k > 0 ==> |Offered(kernel[..k - 1])| < size)
    && (k == |kernel| || |Offered(kernel[..k])| >= size || (k > 0 && (kernel[k - 1] == WouldBlock || Refuses(kernel[k - 1]))))
  }

  /** So it is asked `k` times: what was moved is what these answers offer, in order, as far as the buffer goes, and
      it has failed exactly if the last of them refuses. */
  lemma {:induction false} TransferMeans(size: nat, kernel: seq<Outcome>) returns (k: nat)
    ensures k <= |kernel| && AskedOn(size, kernel, k)
    ensures Transfer(size, kernel) == Transferred(Take(Offered(kernel[..k]), size), k > 0 && Refuses(kernel[k - 1]), kernel[k..])
    decreases |kernel|
  {
    hide Transfer, Offered, AskedOn;
    if size == 0 || kernel == [] {
      k := 0;
      NotAsked(size, kernel);
    } else if kernel[0] == WouldBlock || Refuses(kernel[0]) {
      k := 1;
      StoppedAtOnce(size, kernel);
    } else {
      var now := if kernel[0].Room? then kernel[0].data else [];
      var left := size - |Take(now, size)|;
      var more := TransferMeans(left, kernel[1..]);
      k := more + 1;
      AskedOneMore(size, kernel, more);
      TransferGoesOn(size, kernel);
      OfferedFirst(kernel, k);
      TakeTwice(now, Offered(kernel[1..][..more]), size);
      assert kernel[1..][more..] == kernel[k..];
      assert more > 0 ==> kernel[1..][more - 1] == kernel[k - 1];
    }
  }

  lemma NotAsked(size: nat, kernel: seq<Outcome>)
    requires size == 0 || kernel == []
    ensures AskedOn(size, kernel, 0) && kernel[0..] == kernel
    ensures Transfer(size, kernel) == Transferred(Take(Offered(kernel[..0]), size), false, kernel)
  {
    assert kernel[..0] == [];
  }

  lemma StoppedAtOnce(size: nat, kernel: seq<Outcome>)
    requires size > 0 && kernel != [] && (kernel[0] == WouldBlock || Refuses(kernel[0]))
    ensures AskedOn(size, kernel, 1)
    ensures Transfer(size, kernel) == Transferred(Take(Offered(kernel[..1]), size), Refuses(kernel[0]), kernel[1..])
  {
    OfferedFirst(kernel, 1);
    assert kernel[..0] == [] && kernel[1..][..0] == [];
  }

  lemma TakeTwice(a: bytes, b: bytes, size: nat)
    ensures |Take(a, size)| <= size
    ensures Take(a, size) + Take(b, size - |Take(a, size)|) == Take(a + b, size)
  {
  }

  lemma AskedOneMore(size: nat, kernel: seq<Outcome>, more: nat)
    requires size > 0 && kernel != [] && kernel[0] != WouldBlock && !Refuses(kernel[0])
    requires var now := if kernel[0].Room? then kernel[0].data else []; AskedOn(size - |Take(now, size)|, kernel[1..], more)
    ensures AskedOn(size, kernel, more + 1)
  {
    OfferedFirst(kernel, more + 1);
    if more > 0 {
      OfferedFirst(kernel, more);
      assert kernel[1..][more - 1] == kernel[more];
    } else {
      assert kernel[..0] == [] && kernel[1..][..0] == [];
    }
    forall i | 0 <= i < more ensures kernel[i] != WouldBlock && !Refuses(kernel[i]) {
      if i > 0 {
        assert kernel[i] == kernel[1..][i - 1];
      }
    }
    assert Offered([]) == [];
    hide Offered;
  }

  lemma OfferedFirst(kernel: seq<Outcome>, k: nat)
    requires 0 < k <= |kernel|
    ensures Offered(kernel[..k]) == (if kernel[0].Room? then kernel[0].data else []) + Offered(kernel[1..][..k - 1])
  {
    assert kernel[..k][1..] == kernel[1..][..k - 1];
  }

  lemma TransferGoesOn(size: nat, kernel: seq<Outcome>)
    requires size > 0 && kernel != [] && kernel[0] != WouldBlock && !Refuses(kernel[0])
    ensures var now := if kernel[0].Room? then kernel[0].data else [];
            var rest := Transfer(size - |Take(now, size)|, kernel[1..]);
            Transfer(size, kernel) == rest.(moved := Take(now, size) + rest.moved)
  {
  }

  /** socketNoneBlockRead and socketNoneBlockWrite: -1 on an error, otherwise the number of bytes. */
  method NoneBlockTransfer(size: nat, kernel: seq<Outcome>) returns (count: int, moved: bytes, later: seq<Outcome>)
    ensures Transfer(size, kernel) == Transferred(moved, count == -1, later)
    ensures |moved| <= size && (count == -1 || count == |moved|)
  {
    count, moved, later := 0, [], kernel;
    var left := size;
    while left != 0 && later != []
      invariant count == |moved| && |moved| + left == size
      invariant var rest := Transfer(left, later);
                Transfer(size, kernel) == Transferred(moved + rest.moved, rest.failed, rest.later)
      decreases |later|
    {
      ghost var before, at := later, moved;
      var answer := later[0];
      later := later[1..];
      match answer {
        case Room(data) =>
          if data == [] {
            count := -1;
            return;
          }
          var now := if |data| < left then data else data[..left];
          count, moved, left := count + |now|, moved + now, left - |now|;
          assert at + (now + Transfer(left, later).moved) == at + now + Transfer(left, later).moved;
        case Interrupted =>
        case WouldBlock => return;
        case Failed =>
          count := -1;
          return;
      }
    }
  }

  // ---- what one job does to its direction ----

  /** The callbacks of contexts that have failed. */
  function Failures(contexts: seq<Context>): seq<Callback> {
    seq(|contexts|, i requires 0 <= i < |contexts| => Callback(contexts[i].id, false, []))
  }

  /** The callbacks of contexts that are done, each with what it hands over. */
  function Dones(contexts: seq<Context>, parts: seq<bytes>): seq<Callback>
    requires |contexts| == |parts|
  {
    seq(|contexts|, i requires 0 <= i < |contexts| => Callback(contexts[i].id, true, parts[i]))
  }

  function Opposite(d: Direction): Direction {
    if d.Reading? then Writing else Reading
  }

  /** What crosses for the first local buffer: a read takes what the kernel gives, a write sends its own bytes. */
  function Crossing(s: Side, moved: bytes): bytes
    requires s.local != [] && |moved| <= |s.local[0].rest|
  {
    if s.outgoing then s.local[0].rest[..|moved|] else moved
  }

  /** The local list after the kernel has been asked for one buffer after the other. */
  function AllMoved(s: Side, kernel: seq<Outcome>): Side
    decreases if s.worker == Moving then |s.local| + 1 else 0
  {
    if s.worker != Moving || s.local == [] then s
    else
      var t := Transfer(|s.local[0].rest|, kernel);
      AllMoved(Moved(s, Crossing(s, t.moved), t.failed).(debt := false), t.later)
  }

  function AllFailed(s: Side): Side {
    s.(local := [], log := s.log.(calls := s.log.calls + Failures(s.local)))
  }

  /** The flag goes down, and the queue becomes the local list. */
  function Begun(s: Side, closed: nat): Side {
    s.(gate := s.gate.(flag := s.gate.flag - 1), local := s.local + s.queue, queue := [],
       worker := if closed != 0 then Failing else Moving)
  }

  function JobDone(s: Side, kernel: seq<Outcome>, closed: nat): Side {
    var t := AllMoved(Begun(s, closed), kernel);
    var u := if t.worker == Failing then AllFailed(t) else t;
    u.(queue := u.local + u.queue, local := [], worker := Absent)
  }

  /** One direction whose queue has been called back with failure. */
  function Emptied(s: Side): Side {
    s.(queue := [], log := s.log.(calls := s.log.calls + Failures(s.queue)))
  }

  lemma FirstOfThem(s: seq<Context>, parts: seq<bytes>)
    requires 0 < |parts| <= |s|
    ensures var n := |parts|; s[..n][1..] == s[1..][..n - 1] && s[n..] == s[1..][n - 1..]
    ensures Dones(s[..|parts|], parts) == [Callback(s[0].id, true, parts[0])] + Dones(s[1..][..|parts| - 1], parts[1..])
    ensures Flat(s[..|parts|]) == s[0].rest + Flat(s[1..][..|parts| - 1])
  {
    assert s[..|parts|][1..] == s[1..][..|parts| - 1];
  }

  lemma {:induction false} JoinedFirst(parts: seq<bytes>)
    requires parts != []
    ensures Joined(parts) == parts[0] + Joined(parts[1..])
  {
    var last := |parts| - 1;
    if last > 0 {
      JoinedFirst(parts[..last]);
      assert parts[1..][..last - 1] == parts[..last][1..];
    }
  }

  lemma Rejoined(wire: bytes, rest: bytes, n: nat, more: bytes)
    requires n <= |rest|
    ensures wire + rest[..n] + (rest[n..] + more) == wire + (rest + more)
    ensures wire <= wire + rest[..n] <= wire + (rest + more)
  {
    assert rest == rest[..n] + rest[n..];
    assert wire + rest[..n] + (rest[n..] + more) == wire + (rest + more);
  }

  /** From s to t, sending: the first buffers are done, the others still there, and no byte is lost or repeated. */
  predicate Sends(s: Side, t: Side, parts: seq<bytes>)
    requires |parts| <= |s.local|
  {
    var n := |parts|;
    && (forall i :: 0 <= i < n ==> parts[i] == [])
    && Ids(t.local) == Ids(s.local[n..]) && (t.local != [] ==> t.local[1..] == s.local[n..][1..])
    && s.log.wire + Flat(s.local[..n]) <= t.log.wire <= s.log.wire + Flat(s.local)
    && (t.worker != Failing ==> t.log.wire + Flat(t.local) == s.log.wire + Flat(s.local))
  }

  /** From s to t, receiving: the first buffers are handed over with all that came, none of them empty and all
      but the last one full, and the others wait untouched. */
  predicate Receives(s: Side, t: Side, parts: seq<bytes>)
    requires |parts| <= |s.local|
  {
    var n := |parts|;
    && Fitting(parts, s.local[..n]) && (forall i :: 0 <= i < n - 1 ==> |parts[i]| == |s.local[i].rest|)
    && t.local == s.local[n..]
    && s.log.wire + Joined(parts) <= t.log.wire
    && (t.worker != Failing ==> t.log.wire == s.log.wire + Joined(parts))
  }

  predicate Serves(s: Side, t: Side, parts: seq<bytes>) {
    && |parts| <= |s.local| && t.log.calls == s.log.calls + Dones(s.local[..|parts|], parts)
    && t.queue == s.queue && t.log.broken == (s.log.broken || t.worker == Failing)
    && (if s.outgoing then Sends(s, t, parts) else Receives(s, t, parts))
  }

  lemma ServesNone(s: Side, t: Side)
    requires t.log == s.log && t.local == s.local && t.queue == s.queue && t.worker != Failing
    ensures Serves(s, t, [])
  {
    assert s.local[..0] == [] && s.local[0..] == s.local;
    assert s.log.calls + Dones([], []) == s.log.calls;
    assert Flat([]) == [] && Joined([]) == [];
    assert s.log.wire + [] == s.log.wire;
  }

  /** One turn of the loop that goes on: the buffer is done, and all of it has crossed. */
  predicate TurnDone(s: Side, now: Side, part: bytes)
    requires s.local != []
  {
    && now.local == s.local[1..] && now.outgoing == s.outgoing && now.queue == s.queue && now.log.broken == s.log.broken
    && now.log.calls == s.log.calls + [Callback(s.local[0].id, true, part)]
    && (if s.outgoing then part == [] && now.log.wire == s.log.wire + s.local[0].rest
        else 0 < |part| == |s.local[0].rest| && now.log.wire == s.log.wire + part)
  }

  lemma SendsOneMore(s: Side, now: Side, t: Side, part: bytes, parts: seq<bytes>)
    requires s.local != [] && s.outgoing && TurnDone(s, now, part) && |parts| <= |now.local| && Sends(now, t, parts)
    ensures Sends(s, t, [part] + parts)
  {
    FirstOfThem(s.local, [part] + parts);
    hide Dones, Ids;
    var w, first, rest := s.log.wire, s.local[0].rest, s.local[1..];
    assert w + first + Flat(rest) == w + (first + Flat(rest));
    assert w + first + Flat(rest[..|parts|]) == w + (first + Flat(rest[..|parts|]));
  }

  lemma ReceivesOneMore(s: Side, now: Side, t: Side, part: bytes, parts: seq<bytes>)
    requires s.local != [] && !s.outgoing && TurnDone(s, now, part) && |parts| <= |now.local| && Receives(now, t, parts)
    ensures Receives(s, t, [part] + parts)
  {
    JoinedFirst([part] + parts);
    assert ([part] + parts)[1..] == parts;
    hide Joined, Flat, Ids;
    var w := s.log.wire;
    assert w + part + Joined(parts) == w + (part + Joined(parts));
    assert s.local[|parts| + 1..] == s.local[1..][|parts|..];
    forall i | 0 <= i < |parts| ensures s.local[1..][i] == s.local[i + 1] {
    }
  }

  lemma ServesOneMore(s: Side, now: Side, t: Side, part: bytes, parts: seq<bytes>)
    requires s.local != [] && TurnDone(s, now, part) && Serves(now, t, parts)
    ensures Serves(s, t, [part] + parts)
  {
    FirstOfThem(s.local, [part] + parts);
    assert ([part] + parts)[1..] == parts;
    if s.outgoing {
      SendsOneMore(s, now, t, part, parts);
    } else {
      ReceivesOneMore(s, now, t, part, parts);
    }
    hide Dones, Sends, Receives;
    var calls, first, more := s.log.calls, Callback(s.local[0].id, true, part), Dones(s.local[1..][..|parts|], parts);
    assert calls + [first] + more == calls + ([first] + more);
  }

  /** Where the loop over the local list can stop. */
  lemma {:induction false} MovedOutcome(s: Side, kernel: seq<Outcome>) returns (parts: seq<bytes>)
    requires s.worker == Moving
    ensures Serves(s, AllMoved(s, kernel), parts)
    decreases |s.local|
  {
    if s.local == [] {
      parts := [];
      ServesNone(s, s);
    } else {
      hide Moved, Transfer, Serves, Crossing, TurnDone;
      var t := Transfer(|s.local[0].rest|, kernel);
      var data := Crossing(s, t.moved);
      CrossingFits(s, t.moved);
      var now := Moved(s, data, t.failed).(debt := false);
      if now.worker == Moving {
        var part := TurnGoesOn(s, data, t.failed);
        assert now.local == s.local[1..] by { TurnsOne(s, now, part); }
        var more := MovedOutcome(now, t.later);
        parts := [part] + more;
        ServesOneMore(s, now, AllMoved(s, kernel), part, more);
      } else {
        parts := TurnStops(s, data, t.failed);
      }
    }
  }

  lemma CrossingFits(s: Side, moved: bytes)
    requires s.local != [] && |moved| <= |s.local[0].rest|
    ensures var data := Crossing(s, moved);
            |data| == |moved| && (s.outgoing ==> data == s.local[0].rest[..|data|])
  {
  }

  lemma TurnsOne(s: Side, now: Side, part: bytes)
    requires s.local != [] && TurnDone(s, now, part)
    ensures now.local == s.local[1..]
  {
  }

  lemma TurnGoesOn(s: Side, data: bytes, failed: bool) returns (part: bytes)
    requires s.worker == Moving && s.local != [] && |data| <= |s.local[0].rest|
    requires s.outgoing ==> data == s.local[0].rest[..|data|]
    requires Moved(s, data, failed).worker == Moving
    ensures TurnDone(s, Moved(s, data, failed).(debt := false), part)
  {
    part := if s.outgoing then [] else data;
    assert |data| == |s.local[0].rest|;
    assert s.local[0].rest[..|s.local[0].rest|] == s.local[0].rest;
  }

  lemma TurnStops(s: Side, data: bytes, failed: bool) returns (parts: seq<bytes>)
    requires s.worker == Moving && s.local != [] && |data| <= |s.local[0].rest|
    requires s.outgoing ==> data == s.local[0].rest[..|data|]
    requires Moved(s, data, failed).worker != Moving
    ensures Serves(s, Moved(s, data, failed).(debt := false), parts)
  {
    var t := Moved(s, data, failed).(debt := false);
    if !failed && data == [] {
      parts := [];
      assert s.log.wire + [] == s.log.wire;
      ServesNone(s, t);
    } else if failed || s.outgoing {
      parts := [];
      StopsUnanswered(s, t, data);
    } else {
      parts := [data];
      assert s.local[..1] == [s.local[0]];
      assert Dones(s.local[..1], parts) == [Callback(s.local[0].id, true, data)];
      assert Joined(parts) == data by { assert parts[..0] == []; assert [] + data == data; }
    }
  }

  lemma StopsUnanswered(s: Side, t: Side, data: bytes)
    requires s.worker == Moving && s.local != [] && |data| <= |s.local[0].rest|
    requires s.outgoing ==> data == s.local[0].rest[..|data|]
    requires t == Moved(s, data, true).(debt := false)
             || (s.outgoing && 0 < |data| < |s.local[0].rest| && t == Moved(s, data, false).(debt := false))
    ensures Serves(s, t, [])
  {
    var first := s.local[0];
    assert s.local[..0] == [] && s.local[0..] == s.local;
    assert s.log.calls + Dones([], []) == s.log.calls;
    assert s.log.wire + [] == s.log.wire;
    assert Flat([]) == [] && Joined([]) == [];
    if s.outgoing {
      Rejoined(s.log.wire, first.rest, |data|, Flat(s.local[1..]));
    }
  }

  /** The first queued buffers are reported as done, in order, each with its part.  After a failure all others are
      reported as failed; otherwise they wait again, first as before.  Sending, not one byte of them is lost or
      repeated, and only the first can be cut; receiving, each reported buffer holds at least one byte and all but
      the last are full, together they hold just what the kernel delivered, and the others wait untouched. */
  predicate Reported(s: Side, t: Side, parts: seq<bytes>, failed: bool) {
    var n := |parts|;
    && n <= |s.queue|
    && t.log.calls == s.log.calls + Dones(s.queue[..n], parts) + (if failed then Failures(s.queue[n..]) else [])
    && (failed ==> t.queue == [])
    && (if s.outgoing then
          && (forall i :: 0 <= i < n ==> parts[i] == [])
          && (!failed ==> Ids(t.queue) == Ids(s.queue[n..]) && (t.queue != [] ==> t.queue[1..] == s.queue[n..][1..]))
          && s.log.wire + Flat(s.queue[..n]) <= t.log.wire <= s.log.wire + Flat(s.queue)
          && (!failed ==> t.log.wire + Flat(t.queue) == s.log.wire + Flat(s.queue))
        else
          && (forall i :: 0 <= i < n ==> 0 < |parts[i]| <= |s.queue[i].rest| && (i < n - 1 ==> |parts[i]| == |s.queue[i].rest|))
          && (!failed ==> t.queue == s.queue[n..] && t.log.wire == s.log.wire + Joined(parts))
          && s.log.wire + Joined(parts) <= t.log.wire)
  }

  /** Whatever the kernel answers, a job does just that; on a closed connection it reports only failures. */
  lemma JobOutcome(s: Side, kernel: seq<Outcome>, closed: nat) returns (parts: seq<bytes>, failed: bool)
    requires s.local == []
    ensures Reported(s, JobDone(s, kernel, closed), parts, failed)
    ensures closed > 0 ==> parts == [] && failed
    ensures JobDone(s, kernel, closed).log.broken == (s.log.broken || (failed && closed == 0))
  {
    if closed == 0 {
      hide Reported, AllFailed;
      var u := Begun(s, 0);
      assert [] + s.queue == s.queue;
      parts := MovedOutcome(u, kernel);
      failed := AllMoved(u, kernel).worker == Failing;
      ServedIsReported(s, u, AllMoved(u, kernel), parts);
    } else {
      parts, failed := [], true;
      assert [] + s.queue == s.queue && s.queue[..0] == [] && s.queue[0..] == s.queue;
      assert s.log.calls + Dones([], []) + Failures(s.queue) == s.log.calls + Failures(s.queue);
      assert s.log.wire + [] == s.log.wire && Joined([]) == [];
    }
  }

  lemma ServedIsReported(s: Side, u: Side, t: Side, parts: seq<bytes>)
    requires s.local == [] && u == Begun(s, 0) && Serves(u, t, parts)
    ensures var failed := t.worker == Failing;
            var e := if failed then AllFailed(t) else t;
            Reported(s, e.(queue := e.local + e.queue, local := [], worker := Absent), parts, failed) && e.log.broken == (s.log.broken || failed)
  {
    hide Failures, Dones, Ids, Flat, Joined;
    assert u.local == s.queue;
    assert s.queue[..|parts|] == u.local[..|parts|];
    if s.outgoing {
      SameIds(t.local, s.queue[|parts|..]);
    }
    assert t.local + t.queue == t.local && [] + t.queue == [];
    var calls := s.log.calls + Dones(s.queue[..|parts|], parts);
    assert calls + [] == calls;
  }

  lemma SameIds(a: seq<Context>, b: seq<Context>)
    requires Ids(a) == Ids(b)
    ensures Failures(a) == Failures(b)
  {
    forall i | 0 <= i < |a| ensures a[i].id == b[i].id {
      assert Ids(a)[i] == Ids(b)[i];
    }
  }

  // ---- a job against a kernel that is known ----

  /** The first m answers have room for, or fill, one of the first m buffers each. */
  predicate Fills(contexts: seq<Context>, kernel: seq<Outcome>, m: nat) {
    m <= |contexts| && m <= |kernel|
    && forall i :: 0 <= i < m ==> contexts[i].rest != [] && kernel[i].Room? && |kernel[i].data| >= |contexts[i].rest|
  }

  /** What these buffers hand over. */
  function FullParts(outgoing: bool, contexts: seq<Context>, kernel: seq<Outcome>, m: nat): (r: seq<bytes>)
    requires Fills(contexts, kernel, m)
    ensures |r| == m
  {
    if m == 0 then []
    else FullParts(outgoing, contexts, kernel, m - 1) + [if outgoing then [] else kernel[m - 1].data[..|contexts[m - 1].rest|]]
  }

  /** The callbacks of the first m buffers, and the bytes on the wire behind them. */
  function CallsAfter(s: Side, queue: seq<Context>, kernel: seq<Outcome>, m: nat): seq<Callback>
    requires Fills(queue, kernel, m)
  {
    s.log.calls + Dones(queue[..m], FullParts(s.outgoing, queue, kernel, m))
  }

  function WireAfter(s: Side, queue: seq<Context>, kernel: seq<Outcome>, m: nat): bytes
    requires Fills(queue, kernel, m)
  {
    s.log.wire + if s.outgoing then Flat(queue[..m]) else Joined(FullParts(false, queue, kernel, m))
  }

  function AfterFull(s: Side, kernel: seq<Outcome>, m: nat): Side
    requires Fills(s.local, kernel, m)
  {
    s.(local := s.local[m..], log := s.log.(wire := WireAfter(s, s.local, kernel, m), calls := CallsAfter(s, s.local, kernel, m)))
  }

  lemma AfterNone(s: Side, kernel: seq<Outcome>)
    requires Fills(s.local, kernel, 0)
    ensures AfterFull(s, kernel, 0) == s
  {
    assert s.local[..0] == [] && s.local[0..] == s.local;
    assert s.log.calls + Dones([], []) == s.log.calls;
    assert s.log.wire + [] == s.log.wire && Flat([]) == [] && Joined([]) == [];
  }

  /** One more full buffer. */
  lemma AfterOneMore(s: Side, kernel: seq<Outcome>, m: nat)
    requires m > 0 && Fills(s.local, kernel, m)
    ensures Fills(s.local, kernel, m - 1)
    ensures var was, part := AfterFull(s, kernel, m - 1), kernel[m - 1].data[..|s.local[m - 1].rest|];
            && was.local != [] && was.local[0] == s.local[m - 1]
            && AfterFull(s, kernel, m) ==
               Moved(was, if s.outgoing then s.local[m - 1].rest else part, false).(debt := s.debt, worker := s.worker)
  {
    var all := s.local;
    assert Fills(all, kernel, m - 1);
    assert all[m - 1..][1..] == all[m..] && all[m - 1..][0] == all[m - 1];
    CallsOneMore(s, kernel, m);
    WireOneMore(s, kernel, m);
    hide Fills, CallsAfter, WireAfter;
  }

  lemma CallsOneMore(s: Side, kernel: seq<Outcome>, m: nat)
    requires m > 0 && Fills(s.local, kernel, m) && Fills(s.local, kernel, m - 1)
    ensures var part := if s.outgoing then [] else kernel[m - 1].data[..|s.local[m - 1].rest|];
            && |part| <= |s.local[m - 1].rest|
            && CallsAfter(s, s.local, kernel, m) ==
               CallsAfter(s, s.local, kernel, m - 1) + [Callback(s.local[m - 1].id, true, part)]
  {
    var part := if s.outgoing then [] else kernel[m - 1].data[..|s.local[m - 1].rest|];
    DonesOneMore(s.local, FullParts(s.outgoing, s.local, kernel, m - 1), part, s.log.calls);
  }

  lemma WireOneMore(s: Side, kernel: seq<Outcome>, m: nat)
    requires m > 0 && Fills(s.local, kernel, m) && Fills(s.local, kernel, m - 1)
    ensures var rest := s.local[m - 1].rest;
            WireAfter(s, s.local, kernel, m) ==
            WireAfter(s, s.local, kernel, m - 1) + if s.outgoing then rest else kernel[m - 1].data[..|rest|]
  {
    var all, w := s.local, s.log.wire;
    if s.outgoing {
      assert all[..m] == all[..m - 1] + [all[m - 1]];
      FlatAppend(all[..m - 1], [all[m - 1]]);
      FlatOne(all[m - 1]);
      hide Flat;
      assert w + Flat(all[..m - 1]) + all[m - 1].rest == w + (Flat(all[..m - 1]) + all[m - 1].rest);
    } else {
      var parts, part := FullParts(false, all, kernel, m - 1), kernel[m - 1].data[..|all[m - 1].rest|];
      JoinedOneMore(parts, part);
      hide Joined;
      assert w + Joined(parts) + part == w + (Joined(parts) + part);
    }
  }

  lemma FlatOne(c: Context)
    ensures Flat([c]) == c.rest
  {
    assert Flat([c]) == c.rest + Flat([c][1..]);
  }

  lemma DonesOneMore(all: seq<Context>, parts: seq<bytes>, part: bytes, calls: seq<Callback>)
    requires |parts| < |all|
    ensures var m := |parts| + 1;
            calls + Dones(all[..m], parts + [part]) == calls + Dones(all[..m - 1], parts) + [Callback(all[m - 1].id, true, part)]
  {
    assert Dones(all[..|parts| + 1], parts + [part]) == Dones(all[..|parts|], parts) + [Callback(all[|parts|].id, true, part)];
  }

  lemma TransferFull(size: nat, kernel: seq<Outcome>)
    requires size > 0 && kernel != [] && kernel[0].Room? && |kernel[0].data| >= size
    ensures Transfer(size, kernel) == Transferred(kernel[0].data[..size], false, kernel[1..])
  {
    assert Transfer(0, kernel[1..]) == Transferred([], false, kernel[1..]);
    assert kernel[0].data[..size] + [] == kernel[0].data[..size];
  }

  lemma {:induction false} FillsFirst(s: Side, kernel: seq<Outcome>, m: nat)
    requires s.worker == Moving && !s.debt && Fills(s.local, kernel, m)
    ensures AllMoved(s, kernel) == AllMoved(AfterFull(s, kernel, m), kernel[m..])
  {
    if m == 0 {
      AfterNone(s, kernel);
      assert kernel[0..] == kernel;
    } else {
      FillsFirst(s, kernel, m - 1);
      AfterOneMore(s, kernel, m);
      hide AfterFull, Moved, Transfer;
      var was, rest := AfterFull(s, kernel, m - 1), s.local[m - 1].rest;
      AfterFrame(s, kernel, m - 1);
      TransferFull(|rest|, kernel[m - 1..]);
      assert kernel[m - 1..][1..] == kernel[m..];
      assert rest[..|rest|] == rest;
      MovingStays(was, if s.outgoing then rest else kernel[m - 1].data[..|rest|]);
    }
  }

  lemma MovingStays(s: Side, data: bytes)
    requires s.local != [] && s.worker == Moving && 0 < |data| == |s.local[0].rest|
    ensures Moved(s, data, false).worker == Moving
  {
  }

  lemma AfterFrame(s: Side, kernel: seq<Outcome>, m: nat)
    requires Fills(s.local, kernel, m)
    ensures var t := AfterFull(s, kernel, m); t.worker == s.worker && t.debt == s.debt && t.outgoing == s.outgoing
  {
  }

  lemma JobSplits(s: Side, kernel: seq<Outcome>, m: nat) returns (was: Side)
    requires s.local == [] && !s.debt && Fills(s.queue, kernel, m)
    ensures was == Begun(s, 0).(local := s.queue[m..],
                                log := s.log.(wire := WireAfter(s, s.queue, kernel, m), calls := CallsAfter(s, s.queue, kernel, m)))
    ensures AllMoved(Begun(s, 0), kernel) == AllMoved(was, kernel[m..])
  {
    assert [] + s.queue == s.queue;
    FillsFirst(Begun(s, 0), kernel, m);
    was := AfterFull(Begun(s, 0), kernel, m);
  }

  /** Buffers for which there is room are done one after the other; when there is none for the next one, it waits
      with all behind it. */
  lemma JobUntilBlocked(s: Side, kernel: seq<Outcome>, m: nat)
    requires s.local == [] && !s.debt && Fills(s.queue, kernel, m)
    requires m == |s.queue| || m == |kernel| || kernel[m] == WouldBlock
    ensures var t := JobDone(s, kernel, 0);
            && t.queue == s.queue[m..] && t.log.broken == s.log.broken
            && t.log.calls == CallsAfter(s, s.queue, kernel, m) && t.log.wire == WireAfter(s, s.queue, kernel, m)
  {
    var rest := s.queue[m..];
    hide FullParts, CallsAfter, WireAfter, Fills;
    var was := JobSplits(s, kernel, m);
    if m < |s.queue| {
      var left := kernel[m..];
      assert Transfer(|was.local[0].rest|, left).moved == [] && !Transfer(|was.local[0].rest|, left).failed;
      BlockedAtOnce(was, left);
    }
    hide AllMoved;
    assert rest + [] == rest;
  }

  lemma BlockedAtOnce(s: Side, kernel: seq<Outcome>)
    requires s.worker == Moving && !s.debt && s.local != []
    requires Transfer(|s.local[0].rest|, kernel).moved == [] && !Transfer(|s.local[0].rest|, kernel).failed
    ensures AllMoved(s, kernel) == s.(worker := Leftover)
  {
    hide Transfer;
    assert s.log.wire + [] == s.log.wire;
  }

  /** A buffer the kernel meets with a few bytes only, and then with none: a read hands it over at once, a write
      waits with what is left of it. */
  lemma JobUntilShort(s: Side, kernel: seq<Outcome>, m: nat, data: bytes)
    requires s.local == [] && !s.debt && Fills(s.queue, kernel, m)
    requires m < |s.queue| && m + 1 < |kernel| && 0 < |data| < |s.queue[m].rest|
    requires kernel[m] == Room(data) && kernel[m + 1] == WouldBlock
    ensures var t, next, calls, wire := JobDone(s, kernel, 0), s.queue[m], CallsAfter(s, s.queue, kernel, m), WireAfter(s, s.queue, kernel, m);
            && t.log.broken == s.log.broken
            && (if s.outgoing then
                  && t.queue == [next.(rest := next.rest[|data|..])] + s.queue[m + 1..]
                  && t.log.calls == calls && t.log.wire == wire + next.rest[..|data|]
                else
                  && t.queue == s.queue[m + 1..]
                  && t.log.calls == calls + [Callback(next.id, true, data)] && t.log.wire == wire + data)
  {
    hide FullParts, CallsAfter, WireAfter, Fills;
    var was := JobSplits(s, kernel, m);
    var left := kernel[m..];
    assert left[1..][0] == WouldBlock;
    assert Transfer(|was.local[0].rest|, left) == Transferred(data, false, left[2..]) by {
      assert left[1..][1..] == left[2..];
      assert data + [] == data;
    }
    var behind := s.queue[m + 1..];
    var cut := [s.queue[m].(rest := s.queue[m].rest[|data|..])] + behind;
    assert s.queue[m..][1..] == behind;
    assert behind + [] == behind && cut + [] == cut;
  }

  /** A refusal fails the buffer it meets and all behind it. */
  lemma JobUntilRefused(s: Side, kernel: seq<Outcome>, m: nat)
    requires s.local == [] && !s.debt && Fills(s.queue, kernel, m)
    requires m < |s.queue| && m < |kernel| && s.queue[m].rest != [] && Refuses(kernel[m])
    ensures var t := JobDone(s, kernel, 0);
            && t.queue == [] && t.log.broken && t.log.wire == WireAfter(s, s.queue, kernel, m)
            && t.log.calls == CallsAfter(s, s.queue, kernel, m) + Failures(s.queue[m..])
  {
    hide FullParts, CallsAfter, WireAfter, Fills, Failures;
    var was := JobSplits(s, kernel, m);
    var left := kernel[m..];
    assert Transfer(|was.local[0].rest|, left) == Transferred([], true, left[1..]);
    assert was.log.wire + [] == was.log.wire;
  }

  /** On an open connection a kernel with room for every buffer gets everything that was queued, or fills it, and
      every buffer is reported done. */
  lemma WillingKernelTakesAll(s: Side, kernel: seq<Outcome>)
    requires s.local == [] && !s.debt && Fills(s.queue, kernel, |s.queue|)
    ensures var t := JobDone(s, kernel, 0);
            && t.queue == [] && t.log.broken == s.log.broken
            && |t.log.calls| == |s.log.calls| + |s.queue| && t.log.calls[..|s.log.calls|] == s.log.calls
            && (s.outgoing ==> t.log.wire == s.log.wire + Flat(s.queue))
            && forall i :: 0 <= i < |s.queue| ==>
                 t.log.calls[|s.log.calls| + i] ==
                 Callback(s.queue[i].id, true, if s.outgoing then [] else kernel[i].data[..|s.queue[i].rest|])
  {
    JobUntilBlocked(s, kernel, |s.queue|);
    assert s.queue[..|s.queue|] == s.queue;
    forall i | 0 <= i < |s.queue|
      ensures FullParts(s.outgoing, s.queue, kernel, |s.queue|)[i] == if s.outgoing then [] else kernel[i].data[..|s.queue[i].rest|]
    {
      PartAt(s.outgoing, s.queue, kernel, |s.queue|, i);
    }
    hide JobDone, Fills, Flat, FullParts;
  }

  lemma {:induction false} PartAt(outgoing: bool, contexts: seq<Context>, kernel: seq<Outcome>, m: nat, i: nat)
    requires Fills(contexts, kernel, m) && i < m
    ensures FullParts(outgoing, contexts, kernel, m)[i] == if outgoing then [] else kernel[i].data[..|contexts[i].rest|]
  {
    if i < m - 1 {
      PartAt(outgoing, contexts, kernel, m - 1, i);
    }
  }

  /** The acts of one direction, as steps of the connection. */
  function Steps(d: Direction, acts: seq<Act>): seq<Step> {
    if acts == [] then [] else [On(d, acts[0])] + Steps(d, acts[1..])
  }

  /** What a row of acts that releases nothing leads to. */
  ghost predicate Leads(s: Side, acts: seq<Act>, closed: nat, t: Side, refs: nat)
    decreases |acts|
  {
    if acts == [] then s == t && refs == 0
    else
      && SideEnabled(s, acts[0], closed)
      && !acts[0].Drain? && !acts[0].FailDrained?
      && 0 <= RefChange(acts[0]) <= refs
      && Leads(SideApply(s, acts[0], closed), acts[1..], closed, t, refs - RefChange(acts[0]))
  }

  lemma LeadsNothing(s: Side, closed: nat)
    ensures Leads(s, [], closed, s, 0)
  {
  }

  lemma LeadsFirst(s: Side, act: Act, rest: seq<Act>, closed: nat, t: Side, refs: int)
    requires SideEnabled(s, act, closed) && !act.Drain? && !act.FailDrained? && 0 <= RefChange(act) <= refs
    requires Leads(SideApply(s, act, closed), rest, closed, t, refs - RefChange(act))
    ensures Leads(s, [act] + rest, closed, t, refs)
  {
    hide SideApply, SideEnabled;
    assert ([act] + rest)[1..] == rest;
  }

  lemma {:induction false} LeadsRuns(c: Conn, d: Direction, acts: seq<Act>, t: Side, refs: nat)
    requires Leads(At(c, d), acts, c.closed, t, refs)
    ensures Runs(c, Steps(d, acts), Put(c, d, t).(ref := c.ref + refs))
    decreases |acts|
  {
    hide SideApply, SideEnabled;
    if acts != [] {
      var c1 := Apply(c, On(d, acts[0]));
      LeadsRuns(c1, d, acts[1..], t, refs - RefChange(acts[0]));
      assert Steps(d, acts)[1..] == Steps(d, acts[1..]);
    }
  }

  lemma {:induction false} RunsMore(c: Conn, steps: seq<Step>, mid: Conn, step: Step)
    requires Runs(c, steps, mid) && Enabled(mid, step)
    ensures Runs(c, steps + [step], Apply(mid, step))
    decreases |steps|
  {
    hide Enabled, Apply;
    var all := steps + [step];
    if steps == [] {
      assert all[1..] == [] && all[0] == step;
    } else {
      RunsMore(Apply(c, steps[0]), steps[1..], mid, step);
      assert all[1..] == steps[1..] + [step] && all[0] == steps[0];
    }
  }

  class Endpoint {
    var ref: int
    var isClosed: nat
    var reading: Side
    var writing: Side
    var closer: Closer
    var closerDebt: bool
    var announced: nat
    var destroyed: nat

    ghost function State(): Conn
      reads this
    {
      Conn(reading, writing, ref, isClosed, closer, closerDebt, announced, destroyed)
    }

    constructor ()
      ensures State() == NewConn
    {
      ref, isClosed, reading, writing := 1, 0, NewSide(false), NewSide(true);
      closer, closerDebt, announced, destroyed := Open, false, 0, 0;
    }

    function Lane(d: Direction): Side
      reads this
    {
      if d.Reading? then reading else writing
    }

    method SetLane(d: Direction, s: Side)
      modifies `reading, `writing
      ensures State() == Put(old(State()), d, s)
    {
      if d.Reading? {
        reading := s;
      } else {
        writing := s;
      }
    }

    /** connRead and connWrite: false once the connection is closed; otherwise the context stands at the
        end of the queue and, if the flag was down, the job stands in the pool. */
    method Submit(d: Direction, data: bytes) returns (ok: bool, ghost steps: seq<Step>)
      modifies `ref, `reading, `writing
      ensures ok == (isClosed == 0) && Runs(old(State()), steps, State())
      ensures !ok ==> State() == old(State())
      ensures ok ==> Lane(d).queue == old(Lane(d).queue) + [Context(old(Lane(d).log.accepted), data)]
      ensures ok ==> Lane(d).gate.jobs == old(Lane(d).gate.jobs) + One(old(Lane(d).gate.flag) == 0)
    {
      if isClosed != 0 {
        return false, [];
      }
      var s := Lane(d);
      var ctx := Context(s.log.accepted, data);
      ref := ref + 1;
      s := s.(queue := s.queue + [ctx], log := s.log.(accepted := s.log.accepted + 1, order := s.log.order + [ctx]));
      var flag := s.gate.flag + 1;
      if flag == 1 {
        ref := ref + 1;
        s := s.(gate := s.gate.(flag := flag, jobs := s.gate.jobs + 1));
      } else {
        flag := flag - 1;
      }
      SetLane(d, s);
      ok, steps := true, Steps(d, SubmitActs(old(Lane(d)), data));
      SubmitLeads(old(Lane(d)), data);
      LeadsRuns(old(State()), d, SubmitActs(old(Lane(d)), data), s, 1 + One(old(Lane(d).gate.flag) == 0));
    }

    /** socketIODone, with its assertion that the count never falls below zero. */
    method IODone()
      requires ref > 0
      modifies `ref, `destroyed
      ensures State() == Done(old(State())) && ref >= 0
    {
      var left := ref - 1;
      ref := left;
      if left == 0 {
        destroyed := destroyed + 1;
      }
    }

    /** One step taken by this thread: the run so far grows by it. */
    ghost method Took(was: Conn, steps: seq<Step>, mid: Conn, step: Step) returns (more: seq<Step>)
      requires Invariant(was) && Runs(was, steps, mid) && Enabled(mid, step) && Apply(mid, step) == State()
      ensures more == steps + [step] && Runs(was, more, State()) && Invariant(State())
    {
      hide Invariant, Enabled, Apply;
      RunsMore(was, steps, mid, step);
      RunKeeps(was, steps + [step], State());
      more := steps + [step];
    }

    /** Ends a callback: the reference of its context goes. */
    method ReleaseOne(d: Direction, ghost was: Conn, ghost before: seq<Step>) returns (ghost steps: seq<Step>)
      requires Invariant(was) && Runs(was, before, State()) && Lane(d).debt
      modifies `reading, `writing, `ref, `destroyed
      ensures Runs(was, steps, State()) && isClosed == old(isClosed) && Lane(Opposite(d)) == old(Lane(Opposite(d)))
      ensures Lane(d) == old(Lane(d)).(debt := false)
    {
      RunKeeps(was, before, State());
      HolderCounts(State(), d);
      hide Invariant;
      ghost var mid := State();
      SetLane(d, Lane(d).(debt := false));
      IODone();
      steps := Took(was, before, mid, On(d, Release));
    }

    /** One turn of the loop: the kernel is asked to move the first buffer of the local list. */
    method MoveFirst(d: Direction, kernel: seq<Outcome>, ghost was: Conn, ghost before: seq<Step>)
      returns (later: seq<Outcome>, ghost steps: seq<Step>)
      requires Invariant(was) && Runs(was, before, State())
      requires Lane(d).worker == Moving && !Lane(d).debt && Lane(d).local != []
      modifies `reading, `writing, `ref, `destroyed
      ensures Runs(was, steps, State()) && isClosed == old(isClosed) && Lane(Opposite(d)) == old(Lane(Opposite(d)))
      ensures var t := Transfer(|old(Lane(d)).local[0].rest|, kernel);
              Lane(d) == Moved(old(Lane(d)), Crossing(old(Lane(d)), t.moved), t.failed).(debt := false) && later == t.later
    {
      hide Invariant, Runs, Transfer, SideApply, SideEnabled;
      ghost var mid := State();
      var s := Lane(d);
      var first := s.local[0];
      var count, moved, after := NoneBlockTransfer(|first.rest|, kernel);
      later := after;
      var data := if s.outgoing then first.rest[..|moved|] else moved;
      var log := s.log.(wire := s.log.wire + data);
      var called := false;
      if count == -1 {
        s := s.(worker := Failing, log := log.(broken := true));
      } else if count == 0 {
        s := s.(worker := Leftover, log := log);
      } else if count < |first.rest| && s.outgoing {
        s := s.(worker := Leftover, log := log, local := [first.(rest := first.rest[count..])] + s.local[1..]);
      } else {
        called := true;
        s := s.(local := s.local[1..], debt := true, log := Answered(log, first.id, true, if s.outgoing then [] else data),
                worker := if count < |first.rest| then Leftover else Moving);
      }
      assert s == Moved(Lane(d), data, count == -1);
      MoveApplies(mid, d, data, count == -1);
      hide Moved;
      SetLane(d, s);
      steps := Took(was, before, mid, On(d, Move(data, count == -1)));
      if called {
        steps := ReleaseOne(d, was, steps);
      }
    }

    /** The loop over the local list, until it is empty, the kernel has had enough or a call fails. */
    method MoveAll(d: Direction, kernel: seq<Outcome>, ghost was: Conn, ghost before: seq<Step>) returns (ghost steps: seq<Step>)
      requires Invariant(was) && Runs(was, before, State()) && Lane(d).worker == Moving && !Lane(d).debt
      modifies `reading, `writing, `ref, `destroyed
      ensures Runs(was, steps, State()) && isClosed == old(isClosed) && Lane(Opposite(d)) == old(Lane(Opposite(d)))
      ensures Lane(d) == AllMoved(old(Lane(d)), kernel) && !Lane(d).debt
      ensures Lane(d).worker == Leftover || Lane(d).worker == Failing || (Lane(d).worker == Moving && Lane(d).local == [])
    {
      hide Invariant, Runs;
      var later := kernel;
      steps := before;
      while Lane(d).worker == Moving && Lane(d).local != []
        invariant Runs(was, steps, State()) && isClosed == old(isClosed) && Lane(Opposite(d)) == old(Lane(Opposite(d)))
        invariant AllMoved(Lane(d), later) == AllMoved(old(Lane(d)), kernel) && !Lane(d).debt
        invariant Lane(d).worker == Moving || Lane(d).worker == Leftover || Lane(d).worker == Failing
        decreases if Lane(d).worker == Moving then |Lane(d).local| + 1 else 0
      {
        later, steps := MoveFirst(d, later, was, steps);
      }
    }

    /** The loop after the label closed: everything taken is called back with failure. */
    method FailAll(d: Direction, ghost was: Conn, ghost before: seq<Step>) returns (ghost steps: seq<Step>)
      requires Invariant(was) && Runs(was, before, State()) && Lane(d).worker == Failing && !Lane(d).debt
      modifies `reading, `writing, `ref, `destroyed
      ensures Runs(was, steps, State()) && isClosed == old(isClosed) && Lane(Opposite(d)) == old(Lane(Opposite(d)))
      ensures Lane(d) == AllFailed(old(Lane(d)))
    {
      hide Invariant, Runs, AllFailed;
      steps := before;
      while Lane(d).local != []
        invariant Runs(was, steps, State()) && isClosed == old(isClosed) && Lane(Opposite(d)) == old(Lane(Opposite(d)))
        invariant AllFailed(Lane(d)) == AllFailed(old(Lane(d)))
        invariant !Lane(d).debt && Lane(d).worker == Failing
        decreases |Lane(d).local|
      {
        FailedFirst(Lane(d));
        steps := FailOne(d, was, steps);
      }
      NothingFails(Lane(d));
    }

    method FailOne(d: Direction, ghost was: Conn, ghost before: seq<Step>) returns (ghost steps: seq<Step>)
      requires Invariant(was) && Runs(was, before, State())
      requires Lane(d).worker == Failing && !Lane(d).debt && Lane(d).local != []
      modifies `reading, `writing, `ref, `destroyed
      ensures Runs(was, steps, State()) && isClosed == old(isClosed) && Lane(Opposite(d)) == old(Lane(Opposite(d)))
      ensures var s := old(Lane(d)); Lane(d) == s.(local := s.local[1..], log := Answered(s.log, s.local[0].id, false, []))
    {
      hide Invariant, Runs, Answered;
      ghost var mid := State();
      var s := Lane(d);
      SetLane(d, s.(local := s.local[1..], debt := true, log := Answered(s.log, s.local[0].id, false, [])));
      steps := Took(was, before, mid, On(d, Fail));
      steps := ReleaseOne(d, was, steps);
    }

    /** socketDoRead and socketDoWrite, given what the kernel answers. */
    method DoJob(d: Direction, kernel: seq<Outcome>) returns (ghost steps: seq<Step>)
      requires Invariant(State()) && Lane(d).worker == Called
      modifies this
      ensures Runs(old(State()), steps, State())
      ensures Lane(d) == JobDone(old(Lane(d)), kernel, isClosed)
      ensures isClosed == old(isClosed) && Lane(Opposite(d)) == old(Lane(Opposite(d)))
    {
      hide Invariant, Runs, AllMoved, Steps;
      ghost var was := State();
      var s := Lane(d);
      s := s.(gate := s.gate.(flag := s.gate.flag - 1), local := s.local + s.queue, queue := []);
      SetLane(d, s.(worker := if isClosed != 0 then Failing else Moving));
      steps := Steps(d, [Drop, Grab, Check]);
      Begins(was, d);
      NothingMoves(Lane(d), kernel);
      if Lane(d).worker == Moving {
        steps := MoveAll(d, kernel, was, steps);
      }
      if Lane(d).worker == Failing {
        steps := FailAll(d, was, steps);
      }
      steps := EndJob(d, was, steps);
    }

    /** What the kernel did not take goes back to the head of the queue, and the job's reference goes. */
    method EndJob(d: Direction, ghost was: Conn, ghost before: seq<Step>) returns (ghost steps: seq<Step>)
      requires Invariant(was) && Runs(was, before, State()) && !Lane(d).debt
      requires Lane(d).worker == Leftover || ((Lane(d).worker == Moving || Lane(d).worker == Failing) && Lane(d).local == [])
      modifies `reading, `writing, `ref, `destroyed
      ensures Runs(was, steps, State()) && isClosed == old(isClosed) && Lane(Opposite(d)) == old(Lane(Opposite(d)))
      ensures Lane(d) == old(Lane(d)).(queue := old(Lane(d).local) + old(Lane(d).queue), local := [], worker := Absent)
    {
      hide Invariant, Runs;
      steps := before;
      assert [] + Lane(d).queue == Lane(d).queue;
      if Lane(d).worker == Leftover {
        ghost var mid := State();
        var s := Lane(d);
        SetLane(d, s.(queue := s.local + s.queue, local := [], worker := Leaving));
        steps := Took(was, steps, mid, On(d, PutBack));
      }
      steps := LeaveJob(d, was, steps);
    }

    method LeaveJob(d: Direction, ghost was: Conn, ghost before: seq<Step>) returns (ghost steps: seq<Step>)
      requires Invariant(was) && Runs(was, before, State()) && SideEnabled(Lane(d), Leave, isClosed)
      modifies `reading, `writing, `ref, `destroyed
      ensures Runs(was, steps, State()) && isClosed == old(isClosed) && Lane(Opposite(d)) == old(Lane(Opposite(d)))
      ensures Lane(d) == old(Lane(d)).(worker := Absent)
    {
      hide Invariant, Runs;
      RunKeeps(was, before, State());
      HolderCounts(State(), d);
      ghost var mid := State();
      SetLane(d, Lane(d).(worker := Absent));
      IODone();
      steps := Took(was, before, mid, On(d, Leave));
    }

    /** One half of socketPostIOJobs: every context still queued is called back with failure. */
    method PostIOJobs(d: Direction, ghost was: Conn, ghost before: seq<Step>) returns (ghost steps: seq<Step>)
      requires Invariant(was) && Runs(was, before, State()) && closer == ToDrain(d)
      modifies this
      ensures Runs(was, steps, State()) && isClosed == old(isClosed)
      ensures closer == (if d.Reading? then ToDrain(Writing) else Announcing)
      ensures Lane(d) == Emptied(old(Lane(d))) && Lane(Opposite(d)) == old(Lane(Opposite(d)))
    {
      hide Invariant, Runs, RefChange, SideApply, SideEnabled;
      steps := StartDrain(d, was, before);
      while Lane(d).drained != []
        invariant Runs(was, steps, State()) && isClosed == old(isClosed) && isClosed > 0
        invariant closer == Draining(d) && !closerDebt && Lane(Opposite(d)) == old(Lane(Opposite(d)))
        invariant Lane(d) == old(Lane(d)).(queue := [], drained := Lane(d).drained, log := Lane(d).log)
        invariant AnsweredAll(Lane(d).log, Lane(d).drained) == Emptied(old(Lane(d))).log
        decreases |Lane(d).drained|
      {
        FirstAnswered(Lane(d).log, Lane(d).drained);
        steps := FailFirst(d, was, steps);
      }
      ghost var mid := State();
      closer := if d.Reading? then ToDrain(Writing) else Announcing;
      steps := Took(was, steps, mid, Drained);
    }

    method StartDrain(d: Direction, ghost was: Conn, ghost before: seq<Step>) returns (ghost steps: seq<Step>)
      requires Invariant(was) && Runs(was, before, State()) && closer == ToDrain(d)
      modifies `reading, `writing, `closer
      ensures Runs(was, steps, State()) && isClosed > 0 && closer == Draining(d) && !closerDebt
      ensures Lane(Opposite(d)) == old(Lane(Opposite(d))) && old(Lane(d).drained) == []
      ensures Lane(d) == old(Lane(d)).(drained := old(Lane(d).queue), queue := [])
    {
      RunKeeps(was, before, State());
      NothingDrained(State(), d);
      hide Invariant, Runs, RefChange, Moved, Raised, Answered, Without;
      ghost var mid := State();
      var s := Lane(d);
      SetLane(d, s.(drained := s.queue, queue := []));
      closer := Draining(d);
      steps := Took(was, before, mid, DrainQueue);
    }

    method FailFirst(d: Direction, ghost was: Conn, ghost before: seq<Step>) returns (ghost steps: seq<Step>)
      requires Invariant(was) && Runs(was, before, State()) && isClosed > 0
      requires closer == Draining(d) && !closerDebt && Lane(d).drained != []
      modifies `reading, `writing, `ref, `closerDebt, `destroyed
      ensures Runs(was, steps, State()) && isClosed == old(isClosed) && closer == old(closer) && !closerDebt
      ensures Lane(Opposite(d)) == old(Lane(Opposite(d)))
      ensures Lane(d) == old(Lane(d)).(drained := old(Lane(d)).drained[1..],
                                       log := Answered(old(Lane(d)).log, old(Lane(d)).drained[0].id, false, []))
    {
      hide Invariant, Runs;
      ghost var mid := State();
      var s := Lane(d);
      SetLane(d, s.(drained := s.drained[1..], log := Answered(s.log, s.drained[0].id, false, [])));
      closerDebt := true;
      steps := Took(was, before, mid, FailNext);
      CloserCounts(State());
      mid := State();
      closerDebt := false;
      IODone();
      steps := Took(was, steps, mid, ReleaseNext);
    }

    /** socketCloseConnection: only the first caller drains, announces and releases. */
    method CloseConnection() returns (ghost steps: seq<Step>)
      requires Invariant(State())
      modifies this
      ensures Runs(old(State()), steps, State()) && isClosed == old(isClosed) + 1
      ensures old(isClosed) > 0 ==> State() == old(State()).(closed := isClosed)
      ensures old(isClosed) == 0 ==> closer.Gone? && announced == 1
      ensures old(isClosed) == 0 ==> reading == Emptied(old(reading)) && writing == Emptied(old(writing))
    {
      ghost var was := State();
      StillOpen(was);
      hide Invariant, Runs, SideApply, SideEnabled, RefChange;
      isClosed := isClosed + 1;
      if isClosed == 1 {
        closer := ToDrain(Reading);
      }
      RunsNothing(was);
      steps := Took(was, [], was, Close);
      if isClosed == 1 {
        steps := PostIOJobs(Reading, was, steps);
        steps := PostIOJobs(Writing, was, steps);
        steps := AnnounceAndRelease(was, steps);
      }
    }

    method AnnounceAndRelease(ghost was: Conn, ghost before: seq<Step>) returns (ghost steps: seq<Step>)
      requires Invariant(was) && Runs(was, before, State()) && closer.Announcing?
      modifies `announced, `closer, `ref, `destroyed
      ensures Runs(was, steps, State()) && closer.Gone? && announced == 1 && isClosed == old(isClosed)
    {
      hide Invariant, Runs, SideApply, SideEnabled, RefChange;
      ghost var mid := State();
      announced, closer := announced + 1, Releasing;
      steps := Took(was, before, mid, Announce);
      CloserCounts(State());
      mid := State();
      closer := Gone;
      IODone();
      steps := Took(was, steps, mid, ReleaseLast);
      AnnouncedOnce(State());
    }
  }

  lemma MoveApplies(c: Conn, d: Direction, data: bytes, failed: bool)
    requires SideEnabled(At(c, d), Move(data, failed), c.closed)
    ensures Enabled(c, On(d, Move(data, failed))) && Apply(c, On(d, Move(data, failed))) == Put(c, d, Moved(At(c, d), data, failed))
  {
  }

  function AnsweredAll(log: Log, contexts: seq<Context>): Log {
    log.(calls := log.calls + Failures(contexts))
  }

  lemma FirstAnswered(log: Log, contexts: seq<Context>)
    requires contexts != []
    ensures AnsweredAll(Answered(log, contexts[0].id, false, []), contexts[1..]) == AnsweredAll(log, contexts)
  {
    assert Failures(contexts) == [Callback(contexts[0].id, false, [])] + Failures(contexts[1..]);
    assert log.calls + [Callback(contexts[0].id, false, [])] + Failures(contexts[1..]) == log.calls + Failures(contexts);
  }

  lemma NothingMoves(s: Side, kernel: seq<Outcome>)
    ensures s.worker != Moving ==> AllMoved(s, kernel) == s
  {
  }

  lemma NothingFails(s: Side)
    requires s.local == []
    ensures AllFailed(s) == s
  {
    assert s.log.calls + Failures([]) == s.log.calls;
  }

  lemma FailedFirst(s: Side)
    requires s.local != []
    ensures AllFailed(s.(local := s.local[1..], log := Answered(s.log, s.local[0].id, false, []))) == AllFailed(s)
  {
    FirstAnswered(s.log, s.local);
  }

  lemma StillOpen(c: Conn)
    requires Invariant(c)
    ensures c.closed == 0 ==> c.closer.Open? && !c.closerDebt
  {
    hide InOnePlace, SideInvariant;
  }

  lemma NothingDrained(c: Conn, d: Direction)
    requires Invariant(c) && c.closer == ToDrain(d)
    ensures At(c, d).drained == [] && c.closed > 0 && !c.closerDebt
  {
    hide InOnePlace, SideInvariant;
  }

  lemma CloserCounts(c: Conn)
    requires Invariant(c) && (c.closerDebt || c.closer.Releasing?)
    ensures c.ref > 0
  {
    hide InOnePlace, SideInvariant;
  }

  lemma AnnouncedOnce(c: Conn)
    requires Invariant(c) && c.closer.Gone?
    ensures c.announced == 1
  {
    hide InOnePlace, SideInvariant;
  }

  lemma RunsNothing(c: Conn)
    ensures Runs(c, [], c)
  {
  }

  /** Whoever holds a reference finds it counted. */
  lemma HolderCounts(c: Conn, d: Direction)
    requires Invariant(c) && (At(c, d).debt || At(c, d).worker != Absent)
    ensures c.ref > 0
  {
    hide InOnePlace, SideInvariant;
  }

  lemma TidyInside(c: Conn, d: Direction)
    requires Invariant(c)
    ensures WorkerTidy(At(c, d))
  {
    hide InOnePlace, Streams, WorkerTidy;
  }

  lemma Begins(c: Conn, d: Direction)
    requires Invariant(c) && At(c, d).worker == Called
    ensures !At(c, d).debt
    ensures var s := At(c, d);
            Runs(c, Steps(d, [Drop, Grab, Check]),
                 Put(c, d, Begun(s, c.closed)))
  {
    hide Invariant, Leads, Begun;
    TidyInside(c, d);
    BeginLeads(At(c, d), c.closed);
    LeadsRuns(c, d, [Drop, Grab, Check], Begun(At(c, d), c.closed), 0);
  }

  lemma BeginLeads(s: Side, closed: nat)
    requires s.worker == Called
    ensures Leads(s, [Drop, Grab, Check], closed, Begun(s, closed), 0)
  {
    hide Moved, Answered, Raised, Without, Leads;
    var s1 := SideApply(s, Drop, closed);
    var s2 := SideApply(s1, Grab, closed);
    var t := Begun(s, closed);
    assert [Check] + [] == [Check] && [Grab] + [Check] == [Grab, Check] && [Drop] + [Grab, Check] == [Drop, Grab, Check];
    LeadsNothing(t, closed);
    LeadsFirst(s2, Check, [], closed, t, 0);
    LeadsFirst(s1, Grab, [Check], closed, t, 0);
    LeadsFirst(s, Drop, [Grab, Check], closed, t, 0);
  }

  /** The acts of one submission that nothing interrupts. */
  function SubmitActs(s: Side, data: bytes): seq<Act> {
    [Admit(data)] + ([Count(|s.admitted|)] + ([Enqueue(|s.counted|)] + FlagActs(s.gate.flag == 0)))
  }

  /** One direction after such a submission. */
  function Submitted(s: Side, data: bytes): Side {
    var ctx := Context(s.log.accepted, data);
    s.(queue := s.queue + [ctx],
       gate := if s.gate.flag == 0 then s.gate.(flag := 1, jobs := s.gate.jobs + 1) else s.gate,
       log := s.log.(accepted := s.log.accepted + 1, order := s.log.order + [ctx]))
  }

  lemma SubmitLeads(s: Side, data: bytes)
    ensures Leads(s, SubmitActs(s, data), 0, Submitted(s, data), 1 + One(s.gate.flag == 0))
  {
    hide SideApply, SideEnabled, Appended, Submitted, FlagDone, Leads, FlagActs;
    AppendApplies(s, data);
    AppendedThenRaised(s, data);
    FlagLeads(Appended(s, data));
    var t, first := Submitted(s, data), s.gate.flag == 0;
    var s1 := SideApply(s, Admit(data), 0);
    var s2 := SideApply(s1, Count(|s.admitted|), 0);
    LeadsFirst(s2, Enqueue(|s.counted|), FlagActs(first), 0, t, One(first));
    LeadsFirst(s1, Count(|s.admitted|), [Enqueue(|s.counted|)] + FlagActs(first), 0, t, 1 + One(first));
    LeadsFirst(s, Admit(data), [Count(|s.admitted|)] + ([Enqueue(|s.counted|)] + FlagActs(first)), 0, t, 1 + One(first));
  }

  /** One direction once the context of a call stands in the queue. */
  function Appended(s: Side, data: bytes): Side {
    var ctx := Context(s.log.accepted, data);
    s.(queue := s.queue + [ctx], appended := s.appended + 1,
       log := s.log.(accepted := s.log.accepted + 1, order := s.log.order + [ctx]))
  }

  lemma AppendedThenRaised(s: Side, data: bytes)
    ensures Appended(s, data).appended > 0 && Appended(s, data).gate == s.gate
    ensures FlagDone(Appended(s, data)) == Submitted(s, data)
  {
  }

  lemma AppendApplies(s: Side, data: bytes)
    ensures SideEnabled(s, Admit(data), 0)
    ensures var s1 := SideApply(s, Admit(data), 0);
            && SideEnabled(s1, Count(|s.admitted|), 0)
            && var s2 := SideApply(s1, Count(|s.admitted|), 0);
               && SideEnabled(s2, Enqueue(|s.counted|), 0)
               && SideApply(s2, Enqueue(|s.counted|), 0) == Appended(s, data)
  {
    hide Raised, Moved, Answered;
    var ctx := Context(s.log.accepted, data);
    assert Without(s.admitted + [ctx], |s.admitted|) == s.admitted;
    assert Without(s.counted + [ctx], |s.counted|) == s.counted;
  }

  /** What follows when the flag is raised, by the first thread or by another. */
  function FlagActs(first: bool): seq<Act> {
    [Raise] + if first then [CountJob, InsertJob] else [Lower]
  }

  function FlagDone(s: Side): Side
    requires s.appended > 0
  {
    s.(appended := s.appended - 1,
       gate := if s.gate.flag == 0 then s.gate.(flag := 1, jobs := s.gate.jobs + 1) else s.gate)
  }

  lemma FlagLeads(s: Side)
    requires s.appended > 0
    ensures Leads(s, FlagActs(s.gate.flag == 0), 0, FlagDone(s), One(s.gate.flag == 0))
  {
    if s.gate.flag == 0 {
      FirstRaiseLeads(s);
    } else {
      hide Moved, Answered, Without, Leads;
      var s1, t := SideApply(s, Raise, 0), FlagDone(s);
      LeadsNothing(t, 0);
      LeadsFirst(s1, Lower, [], 0, t, 0);
      LeadsFirst(s, Raise, [Lower], 0, t, 0);
      assert [Lower] + [] == [Lower];
    }
  }

  lemma FirstRaiseLeads(s: Side)
    requires s.appended > 0 && s.gate.flag == 0
    ensures Leads(s, FlagActs(s.gate.flag == 0), 0, FlagDone(s), 1)
  {
    hide Moved, Answered, Without, Leads;
    var s1, t := SideApply(s, Raise, 0), FlagDone(s);
    var s2 := SideApply(s1, CountJob, 0);
    LeadsNothing(t, 0);
    LeadsFirst(s2, InsertJob, [], 0, t, 0);
    assert [InsertJob] + [] == [InsertJob] && [CountJob] + [InsertJob] == [CountJob, InsertJob];
    LeadsFirst(s1, CountJob, [InsertJob], 0, t, 1);
    LeadsFirst(s, Raise, [CountJob, InsertJob], 0, t, 1);
  }

  lemma {:induction false} LeadsAppend(s: Side, a: seq<Act>, m: Side, i: nat, b: seq<Act>, t: Side, j: nat, closed: nat)
    requires Leads(s, a, closed, m, i) && Leads(m, b, closed, t, j)
    ensures Leads(s, a + b, closed, t, i + j)
    decreases |a|
  {
    hide SideApply, SideEnabled;
    if a == [] {
      assert a + b == b;
    } else {
      assert (a + b)[1..] == a[1..] + b;
      LeadsAppend(SideApply(s, a[0], closed), a[1..], m, i - RefChange(a[0]), b, t, j, closed);
    }
  }

  /** A call that has appended its context and raised a flag somebody else still holds up. */
  function Late(s: Side, data: bytes): Side {
    var t := Appended(s, data);
    t.(appended := s.appended, gate := t.gate.(flag := t.gate.flag + 1, losers := t.gate.losers + 1))
  }

  lemma LateLeads(s: Side, data: bytes)
    requires s.gate.flag > 0
    ensures Leads(s, [Admit(data)] + ([Count(|s.admitted|)] + ([Enqueue(|s.counted|)] + [Raise])), 0, Late(s, data), 1)
  {
    hide SideApply, SideEnabled, Appended, Late, Leads;
    AppendApplies(s, data);
    LateRaise(s, data);
    var s3, t := Appended(s, data), Late(s, data);
    LeadsNothing(t, 0);
    LeadsFirst(s3, Raise, [], 0, t, 0);
    assert [Raise] + [] == [Raise];
    var s1 := SideApply(s, Admit(data), 0);
    var s2 := SideApply(s1, Count(|s.admitted|), 0);
    LeadsFirst(s2, Enqueue(|s.counted|), [Raise], 0, t, 0);
    LeadsFirst(s1, Count(|s.admitted|), [Enqueue(|s.counted|)] + [Raise], 0, t, 1);
    LeadsFirst(s, Admit(data), [Count(|s.admitted|)] + ([Enqueue(|s.counted|)] + [Raise]), 0, t, 1);
  }

  lemma LateRaise(s: Side, data: bytes)
    requires s.gate.flag > 0
    ensures SideEnabled(Appended(s, data), Raise, 0) && SideApply(Appended(s, data), Raise, 0) == Late(s, data)
  {
    hide Moved, Answered, Without;
  }

  /** The flag can be down, no job queued and no call under way while a context waits behind a worker that
      has already taken its share: two late calls both found the flag raised, one of them only by the other. */
  lemma WakeUpMissed(a: bytes, b: bytes, c: bytes)
    ensures exists steps: seq<Step>, end: Conn ::
              && Runs(NewConn, steps, end) && end.closed == 0
              && end.writing.queue == [Context(2, c)] && end.writing.worker == Moving
              && end.writing.gate == Gate(0, 0, 0, 0, 0) && end.writing.appended == 0
  {
    hide Leads, SideApply, SideEnabled, Invariant, SubmitActs, Runs, Steps;
    var s0 := NewSide(true);
    var s1 := Submitted(s0, a);
    SubmitLeads(s0, a);
    var s2 := Late(s1, b);
    LateLeads(s1, b);
    var s3 := s2.(local := s2.queue, queue := [], worker := Moving, gate := Gate(1, 1, 0, 0, 0));
    PickLeads(s2, s3);
    var s4 := Late(s3, c);
    LateLeads(s3, c);
    var s5 := s4.(gate := Gate(0, 0, 0, 0, 0));
    LowerLeads(s4, s5);
    assert s4.queue == [Context(2, c)];
    hide Submitted, Late, Appended;
    var late := (s: Side, data: bytes) => [Admit(data)] + ([Count(|s.admitted|)] + ([Enqueue(|s.counted|)] + [Raise]));
    var acts2 := SubmitActs(s0, a) + late(s1, b);
    var acts3 := acts2 + [Pick, Drop, Grab, Check];
    var acts4 := acts3 + late(s3, c);
    var acts5 := acts4 + [Lower, Lower];
    LeadsAppend(s0, SubmitActs(s0, a), s1, 2, late(s1, b), s2, 1, 0);
    LeadsAppend(s0, acts2, s2, 3, [Pick, Drop, Grab, Check], s3, 0, 0);
    LeadsAppend(s0, acts3, s3, 3, late(s3, c), s4, 1, 0);
    LeadsAppend(s0, acts4, s4, 4, [Lower, Lower], s5, 0, 0);
    LeadsRuns(NewConn, Writing, acts5, s5, 4);
    var end := Put(NewConn, Writing, s5).(ref := 5);
    assert Runs(NewConn, Steps(Writing, acts5), end);
  }

  lemma PickLeads(s: Side, t: Side)
    requires s.gate == Gate(2, 1, 0, 0, 1) && s.worker == Absent && s.local == []
    requires t == s.(local := s.queue, queue := [], worker := Moving, gate := Gate(1, 1, 0, 0, 0))
    ensures Leads(s, [Pick, Drop, Grab, Check], 0, t, 0)
  {
    hide Moved, Answered, Raised, Without, Leads;
    var s1 := SideApply(s, Pick, 0);
    var s2 := SideApply(s1, Drop, 0);
    var s3 := SideApply(s2, Grab, 0);
    assert [] + s.queue == s.queue;
    assert [Check] + [] == [Check] && [Grab] + [Check] == [Grab, Check];
    assert [Drop] + [Grab, Check] == [Drop, Grab, Check] && [Pick] + [Drop, Grab, Check] == [Pick, Drop, Grab, Check];
    LeadsNothing(t, 0);
    LeadsFirst(s3, Check, [], 0, t, 0);
    LeadsFirst(s2, Grab, [Check], 0, t, 0);
    LeadsFirst(s1, Drop, [Grab, Check], 0, t, 0);
    LeadsFirst(s, Pick, [Drop, Grab, Check], 0, t, 0);
  }

  lemma LowerLeads(s: Side, t: Side)
    requires s.gate == Gate(2, 2, 0, 0, 0) && t == s.(gate := Gate(0, 0, 0, 0, 0))
    ensures Leads(s, [Lower, Lower], 0, t, 0)
  {
    hide Moved, Answered, Raised, Without, Leads;
    var s1 := SideApply(s, Lower, 0);
    assert [Lower] + [] == [Lower] && [Lower] + [Lower] == [Lower, Lower];
    LeadsNothing(t, 0);
    LeadsFirst(s1, Lower, [], 0, t, 0);
    LeadsFirst(s, Lower, [Lower], 0, t, 0);
  }

  lemma CarelessAdmission()
    ensures Enabled(NewConn, On(Writing, Admit([])))
    ensures Apply(NewConn, On(Writing, Admit([]))) ==
            NewConn.(writing := NewSide(true).(admitted := [Context(0, [])], log := Log(1, [], [], [], false)))
  {
    hide Moved, Raised, Answered, Without;
    assert [] + [Context(0, [])] == [Context(0, [])];
  }

  lemma NothingToDrain(c: Conn, d: Direction)
    requires c.closer == ToDrain(d) && c.closed > 0 && !c.closerDebt && At(c, d).queue == [] && At(c, d).drained == []
    ensures Enabled(c, DrainQueue) && Apply(c, DrainQueue) == c.(closer := Draining(d))
    ensures var t := c.(closer := Draining(d));
            Enabled(t, Drained) && Apply(t, Drained) == c.(closer := if d.Reading? then ToDrain(Writing) else Announcing)
  {
    hide Moved, Raised, Answered, Without;
  }

  lemma DrainsNothing(c0: Conn, steps: seq<Step>, c: Conn, d: Direction)
    requires Runs(c0, steps, c)
    requires c.closer == ToDrain(d) && c.closed > 0 && !c.closerDebt && At(c, d).queue == [] && At(c, d).drained == []
    ensures Runs(c0, steps + [DrainQueue] + [Drained], c.(closer := if d.Reading? then ToDrain(Writing) else Announcing))
  {
    NothingToDrain(c, d);
    hide Runs, Apply, Enabled;
    RunsMore(c0, steps, c, DrainQueue);
    RunsMore(c0, steps + [DrainQueue], c.(closer := Draining(d)), Drained);
  }

  /** A connection nothing was queued on, closed without interference. */
  lemma ClosesAlone(c0: Conn, before: seq<Step>, c: Conn) returns (steps: seq<Step>)
    requires Runs(c0, before, c) && c.closed == 0 && !c.closerDebt
    requires c.reading.queue == [] && c.reading.drained == [] && c.writing.queue == [] && c.writing.drained == []
    ensures Runs(c0, steps, Done(c.(closed := 1, closer := Gone, announced := c.announced + 1)))
  {
    hide Runs, SideApply, SideEnabled;
    RunsMore(c0, before, c, Close);
    var c1 := c.(closed := 1, closer := ToDrain(Reading));
    steps := before + [Close];
    DrainsNothing(c0, steps, c1, Reading);
    steps := steps + [DrainQueue] + [Drained];
    DrainsNothing(c0, steps, c1.(closer := ToDrain(Writing)), Writing);
    steps := steps + [DrainQueue] + [Drained];
    RunsMore(c0, steps, c1.(closer := Announcing), Announce);
    steps := steps + [Announce];
    RunsMore(c0, steps, c1.(closer := Releasing, announced := c.announced + 1), ReleaseLast);
    steps := steps + [ReleaseLast];
  }

  /** Without that care the last reference can go while a call that has seen the connection open is about
      to take its own: it then revives the count of a destroyed connection. */
  lemma CarelessCall()
    ensures exists steps: seq<Step>, end: Conn ::
              && Runs(NewConn, steps, end) && end.destroyed == 1 && end.ref == 0
              && Enabled(end, On(Writing, Count(0))) && Apply(end, On(Writing, Count(0))).ref == 1
  {
    var admitted := NewConn.(writing := NewSide(true).(admitted := [Context(0, [])], log := Log(1, [], [], [], false)));
    RunsNothing(NewConn);
    CarelessAdmission();
    RunsMore(NewConn, [], NewConn, On(Writing, Admit([])));
    var steps := ClosesAlone(NewConn, [] + [On(Writing, Admit([]))], admitted);
    hide Runs, Moved, Raised, Answered, Without;
    var end := Done(admitted.(closed := 1, closer := Gone, announced := 1));
    assert Runs(NewConn, steps, end);
    assert Enabled(end, On(Writing, Count(0)));
  }
}
