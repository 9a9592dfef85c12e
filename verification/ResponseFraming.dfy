/** The client's parsing loop with the table it consults (corecode/client/Client.c): which decoder a response gets
    depends on the request that waits under its number; the request leaves the table with its response, and new
    requests come in between two reads. */
module ResponseFraming {
  import opened Bytes
  import opened Framing

  /** The decoder of each request that waits, by sequence number. */
  type Table = map<nat, Look>

  function Number(b: bytes): nat
    requires |b| >= CLIENT_HEADER
  {
    b[4] as int + 256 * (b[5] as int) + 65536 * (b[6] as int) + 16777216 * (b[7] as int)
  }

  /** One turn of the loop: no waiting request, an error response, or the decoder of the request. */
  function ByTable(table: Table, b: bytes): Decision {
    if |b| < CLIENT_HEADER then More
    else if Number(b) !in table then Bad
    else if b[..4] != [0, 0, 0, 0] then Message(CLIENT_HEADER)
    else table[Number(b)](b)
  }

  function LookUp(table: Table): Look {
    (b: bytes) => ByTable(table, b)
  }

  ghost predicate StableDecoders(table: Table) {
    forall q :: q in table ==> Stable(CLIENT_HEADER, table[q])
  }

  /** While its entries stay, the table never changes its mind about a response. */
  lemma TableIsStable(table: Table)
    requires StableDecoders(table)
    ensures Stable(CLIENT_HEADER, LookUp(table))
  {
    var look := LookUp(table);
    forall b: bytes | Decide(CLIENT_HEADER, look, b).Message?
      ensures 0 < Decide(CLIENT_HEADER, look, b).n <= |b|
    {
      StableAt(CLIENT_HEADER, table[Number(b)], b, []);
    }
    forall b: bytes, c: bytes | !Decide(CLIENT_HEADER, look, b).More?
      ensures Decide(CLIENT_HEADER, look, b + c) == Decide(CLIENT_HEADER, look, b)
    {
      assert (b + c)[..4] == b[..4] && Number(b + c) == Number(b);
      if Number(b) in table {
        StableAt(CLIENT_HEADER, table[Number(b)], b, c);
      }
    }
  }

  /** What the loop delivers, what it leaves, and the table then. */
  datatype Served = Served(messages: seq<bytes>, rest: bytes, bad: bool, table: Table)

  ghost function Serve(table: Table, b: bytes): (s: Served)
    decreases |b|
  {
    match ByTable(table, b)
    case More => Served([], b, false, table)
    case Bad => Served([], b, true, table)
    case Message(n) =>
      if 0 < n <= |b| then
        var later := Serve(table - {Number(b)}, b[n..]);
        later.(messages := [b[..n]] + later.messages)
      else Served([], b, true, table)
  }

  /** Complete responses to requests of which `all` knows the decoders. */
  ghost predicate Answers(all: Table, sent: seq<bytes>) {
    StableDecoders(all) && forall i :: 0 <= i < |sent| ==> Answer(all, sent[i])
  }

  ghost predicate Answer(all: Table, m: bytes) {
    |m| >= CLIENT_HEADER && ByTable(all, m) == Message(|m|)
  }

  ghost predicate Within(table: Table, all: Table) {
    forall q :: q in table ==> q in all && table[q] == all[q]
  }

  /** Each response that has begun to arrive, of all the bytes that have arrived, finds its request in the table,
      although the requests answered before it have left. */
  ghost predicate Awaited(table: Table, sent: seq<bytes>, arrived: int)
    decreases |sent|
  {
    sent != [] && arrived > 0 ==>
      |sent[0]| >= CLIENT_HEADER && Number(sent[0]) in table && Awaited(table - {Number(sent[0])}, sent[1..], arrived - |sent[0]|)
  }

  /** The first d of the sent responses are delivered, and what is left is the beginning of the others. */
  ghost predicate Delivers(s: Served, sent: seq<bytes>, b: bytes, d: nat) {
    && d <= |sent| && s.messages == sent[..d] && !s.bad
    && b == Flatten(sent[..d]) + s.rest && s.rest <= Flatten(sent[d..]) && (d < |sent| ==> |s.rest| < |sent[d]|)
  }

  lemma {:induction false} PrefixServed(table: Table, all: Table, sent: seq<bytes>, b: bytes) returns (d: nat)
    requires Answers(all, sent) && Within(table, all) && Awaited(table, sent, |b|) && b <= Flatten(sent)
    ensures Delivers(Serve(table, b), sent, b, d) && Within(Serve(table, b).table, all)
    decreases |sent|
  {
    d := 0;
    if sent == [] {
      assert sent[..0] == [] && b == [];
    } else {
      var m := sent[0];
      hide Serve, Delivers, ByTable, Within, Number, Stable, Answers, Answer, Awaited;
      if |b| >= |m| {
        WholeBegins(table, all, sent, b);
        var more, left := b[|m|..], table - {Number(m)};
        d := PrefixServed(left, all, sent[1..], more);
        OneMoreDelivered(Serve(left, more), sent, more, d);
        d := d + 1;
      } else {
        FirstAnswer(all, sent);
        PartServed(table, all, sent, b);
      }
    }
  }

  lemma FirstAnswer(all: Table, sent: seq<bytes>)
    requires sent != [] && Answers(all, sent)
    ensures StableDecoders(all) && Answer(all, sent[0]) && |sent[0]| >= CLIENT_HEADER
  {
  }

  /** When the first response has arrived whole, it is delivered, and the others are awaited as before. */
  lemma WholeBegins(table: Table, all: Table, sent: seq<bytes>, b: bytes)
    requires sent != [] && Answers(all, sent) && Within(table, all) && Awaited(table, sent, |b|)
    requires b <= Flatten(sent) && |b| >= |sent[0]|
    ensures |sent[0]| >= CLIENT_HEADER
    ensures var m := sent[0];
            var more, left := b[|m|..], table - {Number(m)};
            && b == m + more && more <= Flatten(sent[1..])
            && Answers(all, sent[1..]) && Within(left, all) && Awaited(left, sent[1..], |more|)
            && Serve(table, b) == Serve(left, more).(messages := [m] + Serve(left, more).messages)
  {
    FirstAnswer(all, sent);
    TailAnswers(all, sent);
    WholeTaken(sent, b);
    TailAwaited(table, sent, |b|);
    hide Serve, ByTable, Number, Stable, Answers, Answer, Awaited, Flatten;
    WholeServed(table, all, sent[0], b[|sent[0]|..]);
  }

  lemma WholeTaken(sent: seq<bytes>, b: bytes)
    requires sent != [] && b <= Flatten(sent) && |b| >= |sent[0]|
    ensures b == sent[0] + b[|sent[0]|..] && b[|sent[0]|..] <= Flatten(sent[1..])
  {
    var m, rest := sent[0], Flatten(sent[1..]);
    assert Flatten(sent) == m + rest;
    hide Flatten;
    PrefixBehind(b, m, rest);
  }

  lemma PrefixBehind(b: bytes, m: bytes, rest: bytes)
    requires b <= m + rest && |b| >= |m|
    ensures b == m + b[|m|..] && b[|m|..] <= rest
  {
    assert b[..|m|] == (m + rest)[..|m|] == m;
    assert (m + rest)[|m|..] == rest;
  }

  lemma TailAwaited(table: Table, sent: seq<bytes>, arrived: nat)
    requires sent != [] && Awaited(table, sent, arrived) && |sent[0]| >= CLIENT_HEADER && arrived >= |sent[0]|
    ensures Number(sent[0]) in table && Awaited(table - {Number(sent[0])}, sent[1..], arrived - |sent[0]|)
  {
    hide Number;
  }

  lemma TailAnswers(all: Table, sent: seq<bytes>)
    requires sent != [] && Answers(all, sent)
    ensures Answers(all, sent[1..])
  {
    forall i | 0 <= i < |sent| - 1 ensures Answer(all, sent[1..][i]) {
      assert sent[1..][i] == sent[i + 1];
    }
  }

  /** A whole response is delivered, whatever follows it. */
  lemma WholeServed(table: Table, all: Table, m: bytes, more: bytes)
    requires StableDecoders(all) && Answer(all, m) && Within(table, all) && Number(m) in table
    ensures var later := Serve(table - {Number(m)}, more);
            Serve(table, m + more) == later.(messages := [m] + later.messages)
  {
    TableIsStable(all);
    StableAt(CLIENT_HEADER, LookUp(all), m, more);
    var b := m + more;
    assert Number(b) == Number(m) && b[..|m|] == m && b[|m|..] == more && b[..4] == m[..4];
    assert ByTable(table, b) == ByTable(all, b);
  }

  /** A request is answered once: a second response under its number ends the connection. */
  lemma SecondAnswerRefused(table: Table, all: Table, m: bytes, more: bytes)
    requires StableDecoders(all) && Answer(all, m) && Within(table, all) && Number(m) in table
    requires |more| >= CLIENT_HEADER && more[4..8] == m[4..8]
    ensures var s := Serve(table, m + more); s.messages == [m] && s.rest == more && s.bad
  {
    WholeServed(table, all, m, more);
    assert more[4..8][0] == more[4] && more[4..8][1] == more[5] && more[4..8][2] == more[6] && more[4..8][3] == more[7];
    assert m[4..8][0] == m[4] && m[4..8][1] == m[5] && m[4..8][2] == m[6] && m[4..8][3] == m[7];
    assert Number(more) == Number(m);
  }

  /** A part of a response is left. */
  lemma PartServed(table: Table, all: Table, sent: seq<bytes>, b: bytes)
    requires sent != [] && StableDecoders(all) && Answer(all, sent[0]) && Within(table, all) && |b| < |sent[0]|
    requires b <= Flatten(sent) && Awaited(table, sent, |b|)
    ensures Delivers(Serve(table, b), sent, b, 0) && Serve(table, b).table == table
  {
    var m := sent[0];
    assert m == b + m[|b|..];
    TableIsStable(all);
    StableAt(CLIENT_HEADER, LookUp(all), b, m[|b|..]);
    assert ByTable(all, b).More?;
    assert |b| >= CLIENT_HEADER ==> Number(b) == Number(m) && b[..4] == m[..4];
    assert sent[..0] == [] && sent[0..] == sent && [] + b == b;
  }

  lemma OneMoreDelivered(later: Served, sent: seq<bytes>, more: bytes, d: nat)
    requires sent != [] && Delivers(later, sent[1..], more, d)
    ensures Delivers(later.(messages := [sent[0]] + later.messages), sent, sent[0] + more, d + 1)
  {
    var m := sent[0];
    assert sent[..d + 1] == [m] + sent[1..][..d] && sent[d + 1..] == sent[1..][d..];
    assert sent[..d + 1][1..] == sent[1..][..d];
    assert m + (Flatten(sent[1..][..d]) + later.rest) == m + Flatten(sent[1..][..d]) + later.rest;
  }

  // ---- read after read ----

  /** The requests registered since the last read, and the bytes of this one. */
  datatype Arrival = Arrival(added: Table, chunk: bytes)

  function Chunks(arrivals: seq<Arrival>): seq<bytes> {
    if arrivals == [] then [] else [arrivals[0].chunk] + Chunks(arrivals[1..])
  }

  ghost function ServeAll(table: Table, rest: bytes, arrivals: seq<Arrival>): Served
    decreases |arrivals|
  {
    if arrivals == [] then Served([], rest, false, table)
    else
      var s := Serve(table + arrivals[0].added, rest + arrivals[0].chunk);
      if s.bad then s
      else
        var later := ServeAll(s.table, s.rest, arrivals[1..]);
        later.(messages := s.messages + later.messages)
  }

  /** No response begins to arrive before its request is in the table. */
  ghost predicate RequestsFirst(table: Table, all: Table, sent: seq<bytes>, rest: bytes, arrivals: seq<Arrival>)
    decreases |arrivals|
  {
    arrivals != [] ==>
      var t, b := table + arrivals[0].added, rest + arrivals[0].chunk;
      var s := Serve(t, b);
      && Within(t, all) && Awaited(t, sent, |b|)
      && (|s.messages| <= |sent| ==> RequestsFirst(s.table, all, sent[|s.messages|..], s.rest, arrivals[1..]))
  }

  /** However the stream of the responses is split into reads, and whenever other requests come in, each response
      is delivered whole and in order, with the decoder of its own request. */
  lemma {:induction false} AnySplitAnswers(table: Table, all: Table, sent: seq<bytes>, rest: bytes, arrivals: seq<Arrival>)
    requires Answers(all, sent) && RequestsFirst(table, all, sent, rest, arrivals)
    requires rest + Flatten(Chunks(arrivals)) == Flatten(sent) && (sent != [] ==> |rest| < |sent[0]|)
    ensures var s := ServeAll(table, rest, arrivals); s.messages == sent && s.rest == [] && !s.bad
    decreases |arrivals|
  {
    hide Answers, Serve, Within, Awaited, Flatten, Delivers, Chunks;
    if arrivals == [] {
      NothingToCome(rest, sent);
    } else {
      var t, b := table + arrivals[0].added, rest + arrivals[0].chunk;
      var more := Flatten(Chunks(arrivals[1..]));
      FirstChunk(rest, arrivals);
      var d := PrefixServed(t, all, sent, b);
      var s := Serve(t, b);
      LeftToCome(sent, s, b, more, d);
      RestAnswers(all, sent, d);
      AnySplitAnswers(s.table, all, sent[d..], s.rest, arrivals[1..]);
      assert sent[..d] + sent[d..] == sent;
    }
  }

  lemma NothingToCome(rest: bytes, sent: seq<bytes>)
    requires rest + Flatten(Chunks([])) == Flatten(sent) && (sent != [] ==> |rest| < |sent[0]|)
    ensures rest == [] && sent == []
  {
    assert rest + [] == rest;
  }

  lemma FirstChunk(rest: bytes, arrivals: seq<Arrival>)
    requires arrivals != []
    ensures rest + Flatten(Chunks(arrivals)) == rest + arrivals[0].chunk + Flatten(Chunks(arrivals[1..]))
  {
    var chunk, more := arrivals[0].chunk, Chunks(arrivals[1..]);
    assert Chunks(arrivals) == [chunk] + more;
    FlattenCons(chunk, more);
    hide Chunks, Flatten;
    assert rest + (chunk + Flatten(more)) == rest + chunk + Flatten(more);
  }

  lemma FlattenCons(chunk: bytes, more: seq<bytes>)
    ensures Flatten([chunk] + more) == chunk + Flatten(more)
  {
    assert ([chunk] + more)[1..] == more;
  }

  lemma RestAnswers(all: Table, sent: seq<bytes>, d: nat)
    requires d <= |sent| && Answers(all, sent)
    ensures Answers(all, sent[d..])
  {
    forall i | 0 <= i < |sent| - d ensures Answer(all, sent[d..][i]) {
      assert sent[d..][i] == sent[d + i];
    }
  }

  lemma LeftToCome(sent: seq<bytes>, s: Served, b: bytes, more: bytes, d: nat)
    requires Delivers(s, sent, b, d) && b + more == Flatten(sent)
    ensures d <= |sent| && s.messages == sent[..d] && !s.bad && |s.messages| == d
    ensures s.rest + more == Flatten(sent[d..]) && (sent[d..] != [] ==> |s.rest| < |sent[d..][0]|)
  {
    FlattenSplit(sent, d);
    var first := Flatten(sent[..d]);
    assert b + more == first + (s.rest + more);
    assert (first + (s.rest + more))[|first|..] == s.rest + more;
    assert (first + Flatten(sent[d..]))[|first|..] == Flatten(sent[d..]);
  }

  lemma {:induction false} FlattenSplit(sent: seq<bytes>, d: nat)
    requires d <= |sent|
    ensures Flatten(sent) == Flatten(sent[..d]) + Flatten(sent[d..])
    decreases d
  {
    if d == 0 {
      assert sent[..0] == [] && sent[0..] == sent;
    } else {
      FlattenSplit(sent[1..], d - 1);
      assert sent[..d][1..] == sent[1..][..d - 1] && sent[d..] == sent[1..][d - 1..];
    }
  }
}
