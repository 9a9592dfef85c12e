/** Where the fields stand on the wire, with the offsets of the source as literals: the dump of a map
    (libs/cluster/ClusterMap.c), the responses that carry one (services/mon/server/cluster/ClusterHandler.c) and
    the headers of h/res/Resource.h.  What the client's loop makes of a response is said in these terms. */
module WireLayout {
  import opened Arithmetic
  import opened Bytes
  import opened ClusterMap
  import opened ClusterCodec
  import Framing
  import ResponseFraming

  /** The number in the n bytes at position at, the lowest byte first. */
  function Word(b: bytes, at: nat, n: nat): int
    requires at + n <= |b|
    decreases n
  {
    if n == 0 then 0 else b[at] as int + 256 * Word(b, at + 1, n - 1)
  }

  lemma WordOfTwo(b: bytes, at: nat)
    requires at + 2 <= |b|
    ensures Word(b, at, 2) == U16At(b, at)
  {
    assert Word(b, at + 2, 0) == 0;
    assert Word(b, at + 1, 1) == b[at + 1] as int;
  }

  lemma WordOfFour(b: bytes, at: nat)
    requires at + 4 <= |b|
    ensures Word(b, at, 4) == U32At(b, at)
  {
    WordOfTwo(b, at + 2);
    assert Word(b, at + 1, 3) == b[at + 1] as int + 256 * Word(b, at + 2, 2);
  }

  lemma WordOfEight(b: bytes, at: nat)
    requires at + 8 <= |b|
    ensures Word(b, at, 8) == U32At(b, at) + 0x1_0000_0000 * U32At(b, at + 4)
  {
    WordOfFour(b, at + 4);
    hide U32At;
    assert Word(b, at, 8) == b[at] as int + 256 * (b[at + 1] as int + 256 * Word(b, at + 2, 6));
    assert Word(b, at + 2, 6) == b[at + 2] as int + 256 * (b[at + 3] as int + 256 * Word(b, at + 4, 4));
    FourUp(b, at);
  }

  lemma FourUp(b: bytes, at: nat)
    requires at + 4 <= |b|
    ensures U32At(b, at) == b[at] as int + 256 * (b[at + 1] as int + 256 * (b[at + 2] as int + 256 * (b[at + 3] as int)))
  {
  }

  lemma HeldWord(b: bytes, at: nat, v: u32)
    requires Holds(b, at, U32(v))
    ensures at + 4 <= |b| && Word(b, at, 4) == v
  {
    HoldsU32(b, at, v);
    WordOfFour(b, at);
  }

  // ---- the dump ----

  lemma {:induction false} HeldWords(b: bytes, at: nat, ws: seq<u32>, j: nat)
    requires Holds(b, at, Words(ws)) && j < |ws|
    ensures at + 4 * j + 4 <= |b| && Word(b, at + 4 * j, 4) == ws[j]
    decreases j
  {
    HoldsBoth(b, at, U32(ws[0]), Words(ws[1..]));
    hide Holds, Word, U32;
    if j == 0 {
      HeldWord(b, at, ws[0]);
    } else {
      HeldWords(b, at + 4, ws[1..], j - 1);
    }
  }

  /** Length of the sets in a dump, and of the first k services behind them. */
  function SetsLength(m: OSMap): nat {
    |m.bsets| * (4 + 4 * m.replicas)
  }

  function ServicesLength(ss: seq<Service>, k: nat): nat
    requires k <= |ss|
  {
    if k == 0 then 0 else ServicesLength(ss, k - 1) + 141 + 4 * |ss[k - 1].bsets|
  }

  lemma {:induction false} HeldSet(b: bytes, at: nat, ss: seq<BSet>, replicas: nat, i: nat)
    requires Holds(b, at, BSetsBytes(ss)) && i < |ss| && (forall s :: s in ss ==> |s.services| == replicas)
    ensures Holds(b, at + i * (4 + 4 * replicas), BSetBytes(ss[i]))
    decreases i
  {
    hide BSetBytes, Holds;
    HoldsBoth(b, at, BSetBytes(ss[0]), BSetsBytes(ss[1..]));
    SetLength(ss[0]);
    if i > 0 {
      HeldSet(b, at + (4 + 4 * replicas), ss[1..], replicas, i - 1);
      OneMoreTime(i - 1, 4 + 4 * replicas);
    }
  }

  lemma SetLength(s: BSet)
    ensures |BSetBytes(s)| == 4 + 4 * |s.services|
  {
  }

  lemma {:induction false} SetsLengthIs(ss: seq<BSet>, replicas: nat)
    requires forall s :: s in ss ==> |s.services| == replicas
    ensures |BSetsBytes(ss)| == |ss| * (4 + 4 * replicas)
  {
    hide BSetBytes;
    if ss != [] {
      var size := 4 + 4 * replicas;
      SetLength(ss[0]);
      assert |ss[0].services| == replicas;
      SetsLengthIs(ss[1..], replicas);
      OneMoreTime(|ss| - 1, size);
      assert |BSetsBytes(ss)| == |BSetBytes(ss[0])| + |BSetsBytes(ss[1..])|;
    }
  }

  lemma {:induction false} HeldService(b: bytes, at: nat, ss: seq<Service>, k: nat)
    requires Holds(b, at, ServicesBytes(ss)) && k < |ss| && (forall s :: s in ss ==> ProperService(s))
    ensures Holds(b, at + ServicesLength(ss, k), ServiceBytes(ss[k]))
    decreases k
  {
    hide ServiceBytes, Holds;
    HoldsBoth(b, at, ServiceBytes(ss[0]), ServicesBytes(ss[1..]));
    if k > 0 {
      OneService(ss[0]);
      HeldService(b, at + |ServiceBytes(ss[0])|, ss[1..], k - 1);
      LengthBehind(ss, k);
    }
  }

  lemma OneService(s: Service)
    requires ProperService(s)
    ensures |ServiceBytes(s)| == 141 + 4 * |s.bsets|
  {
  }

  lemma {:induction false} LengthBehind(ss: seq<Service>, k: nat)
    requires 0 < k <= |ss|
    ensures ServicesLength(ss, k) == 141 + 4 * |ss[0].bsets| + ServicesLength(ss[1..], k - 1)
  {
    if k > 1 {
      LengthBehind(ss, k - 1);
    }
  }

  lemma {:induction false} ServicesLengthIs(ss: seq<Service>)
    requires forall s :: s in ss ==> ProperService(s)
    ensures |ServicesBytes(ss)| == ServicesLength(ss, |ss|)
  {
    hide ServiceBytes;
    if ss != [] {
      OneService(ss[0]);
      ServicesLengthIs(ss[1..]);
      LengthBehind(ss, |ss|);
    }
  }

  lemma DumpHolds(m: OSMap, before: bytes, after: bytes)
    requires Proper(m)
    ensures var b, p := before + Dumped(m) + after, |before|;
            && Holds(b, p, HeaderBytes(m)) && Holds(b, p + 14, BSetsBytes(m.bsets))
            && Holds(b, p + 14 + SetsLength(m), ServicesBytes(m.services))
            && |b| == p + 14 + SetsLength(m) + ServicesLength(m.services, |m.services|) + |after|
  {
    hide HeaderBytes, BSetsBytes, ServicesBytes;
    var b, p := before + Dumped(m) + after, |before|;
    SetsLengthIs(m.bsets, m.replicas);
    ServicesLengthIs(m.services);
    assert b[p..p + |Dumped(m)|] == Dumped(m);
    assert Holds(b, p, Dumped(m));
    HoldsBoth(b, p, HeaderBytes(m), BSetsBytes(m.bsets) + ServicesBytes(m.services));
    HoldsBoth(b, p + 14, BSetsBytes(m.bsets), ServicesBytes(m.services));
  }

  /** The header of a dump: version, number of sets, replicas and number of services; then the sets, then the
      services, and nothing else. */
  lemma DumpHeader(m: OSMap, before: bytes, after: bytes)
    requires Proper(m)
    ensures var b, p := before + Dumped(m) + after, |before|;
            && |b| == p + 14 + SetsLength(m) + ServicesLength(m.services, |m.services|) + |after|
            && Word(b, p, 4) == m.version && Word(b, p + 4, 4) == |m.bsets|
            && Word(b, p + 8, 2) == m.replicas && Word(b, p + 10, 4) == |m.services|
  {
    DumpHolds(m, before, after);
    var b, p := before + Dumped(m) + after, |before|;
    assert |b| >= p + 14;
    hide Dumped, Holds, Word, U32, U16, Proper;
    HoldsBoth(b, p, U32(m.version), U32(|m.bsets| % WRAP) + (U16(m.replicas) + U32(|m.services| % WRAP)));
    HoldsBoth(b, p + 4, U32(|m.bsets| % WRAP), U16(m.replicas) + U32(|m.services| % WRAP));
    HoldsBoth(b, p + 8, U16(m.replicas), U32(|m.services| % WRAP));
    HeldWord(b, p, m.version);
    HeldWord(b, p + 4, |m.bsets| % WRAP);
    HoldsU16(b, p + 8, m.replicas);
    WordOfTwo(b, p + 8);
    HeldWord(b, p + 10, |m.services| % WRAP);
    CountsKept(m);
  }

  lemma CountsKept(m: OSMap)
    requires Proper(m)
    ensures |m.bsets| % WRAP == |m.bsets| && |m.services| % WRAP == |m.services|
  {
  }

  /** Set i: its id, and the services of its replicas. */
  lemma DumpSet(m: OSMap, before: bytes, after: bytes, i: nat)
    requires Proper(m) && i < |m.bsets|
    ensures var b, at, s := before + Dumped(m) + after, |before| + 14 + i * (4 + 4 * m.replicas), m.bsets[i];
            && at + 4 + 4 * m.replicas <= |b| && Word(b, at, 4) == s.id && |s.services| == m.replicas
            && forall j :: 0 <= j < m.replicas ==> Word(b, at + 4 + 4 * j, 4) == s.services[j]
  {
    hide Dumped, Word, BSetBytes, BSetsBytes, Holds, SetsLength, ServicesLength, ServicesBytes;
    DumpHolds(m, before, after);
    assert m.bsets[i] in m.bsets;
    HeldSet(before + Dumped(m) + after, |before| + 14, m.bsets, m.replicas, i);
    SetFields(before + Dumped(m) + after, |before| + 14 + i * (4 + 4 * m.replicas), m.bsets[i]);
  }

  lemma SetFields(b: bytes, at: nat, s: BSet)
    requires Holds(b, at, BSetBytes(s))
    ensures at + 4 + 4 * |s.services| <= |b| && Word(b, at, 4) == s.id
    ensures forall j :: 0 <= j < |s.services| ==> Word(b, at + 4 + 4 * j, 4) == s.services[j]
  {
    HoldsBoth(b, at, U32(s.id), Words(s.services));
    HeldWord(b, at, s.id);
    AllHeldWords(b, at + 4, s.services);
  }

  /** Service k: id, 128 bytes of host, port and status in two's complement, and its sets. */
  lemma DumpService(m: OSMap, before: bytes, after: bytes, k: nat)
    requires Proper(m) && k < |m.services|
    ensures var b, at, s := before + Dumped(m) + after, |before| + 14 + SetsLength(m) + ServicesLength(m.services, k), m.services[k];
            && at + 141 + 4 * |s.bsets| <= |b| && Word(b, at, 4) == s.id && b[at + 4..at + 132] == s.host
            && Word(b, at + 132, 4) == (if s.port < 0 then s.port + 0x1_0000_0000 else s.port)
            && b[at + 136] == (if s.status < 0 then s.status + 256 else s.status)
            && Word(b, at + 137, 4) == |s.bsets|
            && forall j :: 0 <= j < |s.bsets| ==> Word(b, at + 141 + 4 * j, 4) == s.bsets[j]
  {
    hide Dumped, Word, ServiceBytes, ServicesBytes, BSetsBytes, Holds, SetsLength, ServicesLength;
    DumpHolds(m, before, after);
    var b, s := before + Dumped(m) + after, m.services[k];
    assert ProperService(s);
    HeldService(b, |before| + 14 + SetsLength(m), m.services, k);
    ServiceFields(b, |before| + 14 + SetsLength(m) + ServicesLength(m.services, k), s);
  }

  lemma ServiceFields(b: bytes, at: nat, s: Service)
    requires Holds(b, at, ServiceBytes(s)) && ProperService(s)
    ensures at + 141 + 4 * |s.bsets| <= |b| && Word(b, at, 4) == s.id && b[at + 4..at + 132] == s.host
    ensures Word(b, at + 132, 4) == (if s.port < 0 then s.port + 0x1_0000_0000 else s.port)
    ensures b[at + 136] == (if s.status < 0 then s.status + 256 else s.status) && Word(b, at + 137, 4) == |s.bsets|
    ensures forall j :: 0 <= j < |s.bsets| ==> Word(b, at + 141 + 4 * j, 4) == s.bsets[j]
  {
    hide Holds, Word, Words, U32, ServiceBytes;
    ServicePieces(b, at, s);
    HeldHost(b, at + 4, s.host);
    HeldStatus(b, at + 136, s.status);
    HeldWord(b, at, s.id);
    HeldWord(b, at + 132, Unsigned(s.port));
    HeldWord(b, at + 137, |s.bsets| % WRAP);
    AllHeldWords(b, at + 141, s.bsets);
  }

  lemma AllHeldWords(b: bytes, at: nat, ws: seq<u32>)
    requires Holds(b, at, Words(ws))
    ensures at + 4 * |ws| <= |b| && forall j :: 0 <= j < |ws| ==> Word(b, at + 4 * j, 4) == ws[j]
  {
    hide Word, Words, U32;
    forall j | 0 <= j < |ws| ensures Word(b, at + 4 * j, 4) == ws[j] {
      HeldWords(b, at, ws, j);
    }
  }

  lemma ServicePieces(b: bytes, at: nat, s: Service)
    requires Holds(b, at, ServiceBytes(s)) && ProperService(s)
    ensures at + 141 + 4 * |s.bsets| <= |b|
    ensures Holds(b, at, U32(s.id)) && Holds(b, at + 4, s.host) && Holds(b, at + 132, U32(Unsigned(s.port)))
    ensures Holds(b, at + 136, [StatusByte(s.status)]) && Holds(b, at + 137, U32(|s.bsets| % WRAP))
    ensures Holds(b, at + 141, Words(s.bsets))
  {
    assert at + 141 + 4 * |s.bsets| <= |b|;
    hide Holds, U32, Words;
    var status := [StatusByte(s.status)];
    var sets := U32(|s.bsets| % WRAP) + Words(s.bsets);
    HoldsBoth(b, at, U32(s.id), s.host + (U32(Unsigned(s.port)) + (status + sets)));
    HoldsBoth(b, at + 4, s.host, U32(Unsigned(s.port)) + (status + sets));
    HoldsBoth(b, at + 132, U32(Unsigned(s.port)), status + sets);
    HoldsBoth(b, at + 136, status, sets);
    HoldsBoth(b, at + 137, U32(|s.bsets| % WRAP), Words(s.bsets));
  }

  lemma HeldHost(b: bytes, at: nat, host: bytes)
    requires Holds(b, at, host) && |host| == 128
    ensures at + 128 <= |b| && b[at..at + 128] == host
  {
  }

  lemma HeldStatus(b: bytes, at: nat, status: i8)
    requires Holds(b, at, [StatusByte(status)])
    ensures at < |b| && b[at] == if status < 0 then status + 256 else status
  {
    assert b[at..at + 1][0] == b[at];
  }

  // ---- the responses ----

  /** The header of every response: error id, then sequence number. */
  lemma ResponseLayout(errorId: i32, sequence: u32, after: bytes)
    ensures var b := ResponseHeader(errorId, sequence) + after;
            && |b| == 8 + |after| && b[8..] == after && Word(b, 4, 4) == sequence
            && Word(b, 0, 4) == (if errorId < 0 then errorId + 0x1_0000_0000 else errorId)
  {
    hide U32, Word;
    var first, second := U32(Unsigned(errorId)), U32(sequence);
    var b := ResponseHeader(errorId, sequence) + after;
    assert b[0..4] == first && b[4..8] == second && Holds(b, 0, first) && Holds(b, 4, second);
    HeldWord(b, 0, Unsigned(errorId));
    HeldWord(b, 4, sequence);
  }

  /** The response of the latest map: its header, and the dump from byte 8 on. */
  lemma LatestLayout(errorId: i32, sequence: u32, m: OSMap)
    ensures LatestBytes(errorId, sequence, m) == ResponseHeader(errorId, sequence) + Dumped(m)
    ensures LatestBytes(errorId, sequence, m)[8..] == Dumped(m)
  {
    ResponseLayout(errorId, sequence, Dumped(m));
  }

  /** The response of the status: header, objects, used and free as 64-bit words, and the dump from byte 32 on. */
  lemma StatusLayout(errorId: i32, sequence: u32, c: Counters, m: OSMap)
    requires Wide(c)
    ensures var b := StatusBytes(errorId, sequence, c, m);
            && |b| == 32 + |Dumped(m)| && b[..8] == ResponseHeader(errorId, sequence) && b[32..] == Dumped(m)
            && Word(b, 8, 8) == c.objects && Word(b, 16, 8) == c.used && Word(b, 24, 8) == c.free
  {
    hide U32, U64, Dumped, ResponseHeader, Word;
    var head, x, y, z, d := ResponseHeader(errorId, sequence), U64(c.objects), U64(c.used), U64(c.free), Dumped(m);
    var b := StatusBytes(errorId, sequence, c, m);
    assert b == head + x + (y + z + d) == head + x + y + (z + d) == head + x + y + z + d;
    WordAt64(head, c.objects, y + z + d);
    WordAt64(head + x, c.used, z + d);
    WordAt64(head + x + y, c.free, d);
  }

  lemma WordAt64(before: bytes, v: nat, after: bytes)
    requires v < WIDE
    ensures Word(before + U64(v) + after, |before|, 8) == v
  {
    hide U32, U32At, Word;
    var b, p, low, high := before + U64(v) + after, |before|, U32(v % WRAP), U32(v / WRAP);
    assert b[p..p + 4] == low && b[p + 4..p + 8] == high && Holds(b, p, low) && Holds(b, p + 4, high);
    HoldsU32(b, p, v % WRAP);
    HoldsU32(b, p + 4, v / WRAP);
    WordOfEight(b, p);
  }

  // ---- what the client's loop makes of them ----

  /** Any bytes that begin with a response header: the connection is given up if nobody waits under the sequence
      number, the message is the header alone if there is an error id, and otherwise the decoder of the waiting
      request decides. */
  lemma AnswerByTable(table: ResponseFraming.Table, errorId: i32, sequence: u32, after: bytes)
    ensures var b := ResponseHeader(errorId, sequence) + after;
            ResponseFraming.ByTable(table, b) ==
              if sequence !in table then Framing.Bad
              else if errorId != 0 then Framing.Message(8)
              else table[sequence](b)
  {
    var b := ResponseHeader(errorId, sequence) + after;
    ResponseLayout(errorId, sequence, after);
    FourBytes(b);
    assert |b| >= 8 && ResponseFraming.Number(b) == sequence;
    hide ResponseHeader, Word;
  }

  lemma FourBytes(b: bytes)
    requires |b| >= 8
    ensures ResponseFraming.Number(b) == Word(b, 4, 4)
    ensures b[..4] == [0, 0, 0, 0] <==> Word(b, 0, 4) == 0
  {
    WordOfFour(b, 4);
    WordOfFour(b, 0);
    hide Word;
  }

  function LatestDecoder(): Framing.Look {
    (b: bytes) => AsDecision(DecodeLatest(b))
  }

  function StatusDecoder(): Framing.Look {
    (b: bytes) => AsDecision(DecodeStatus(b))
  }

  /** So a map that was sent to a waiting request is taken as exactly one message, which holds that map, whatever
      comes behind it. */
  lemma LatestAnswered(table: ResponseFraming.Table, sequence: u32, m: OSMap, after: bytes)
    requires sequence in table && table[sequence] == LatestDecoder() && Proper(m) && UniqueIds(m)
    ensures var b := LatestBytes(0, sequence, m);
            && ResponseFraming.ByTable(table, b + after) == Framing.Message(|b|)
            && DecodeLatest(b) == Read(MapResponse(0, sequence, Some(m)), |b|)
  {
    hide DecodeLatest, ResponseHeader, Dumped, ResponseFraming.ByTable;
    var b := LatestBytes(0, sequence, m);
    LatestRoundTrip(sequence, m, after);
    LatestRoundTrip(sequence, m, []);
    assert b + [] == b;
    assert b + after == ResponseHeader(0, sequence) + (Dumped(m) + after);
    AnswerByTable(table, 0, sequence, Dumped(m) + after);
    assert table[sequence](b + after) == AsDecision(DecodeLatest(b + after));
  }

  lemma StatusAnswered(table: ResponseFraming.Table, sequence: u32, c: Counters, m: OSMap, after: bytes)
    requires sequence in table && table[sequence] == StatusDecoder() && Proper(m) && UniqueIds(m) && Wide(c)
    ensures var b := StatusBytes(0, sequence, c, m);
            && ResponseFraming.ByTable(table, b + after) == Framing.Message(|b|)
            && DecodeStatus(b) == DecodeStatus(b + after) && DecodeStatus(b).Read? && DecodeStatus(b).value.osMap == Some(m)
            && DecodeStatus(b).value.sequence == sequence
  {
    hide DecodeStatus, ResponseHeader, Dumped, U64, ResponseFraming.ByTable;
    var b := StatusBytes(0, sequence, c, m);
    StatusRoundTrip(sequence, c, m, after);
    StatusRoundTrip(sequence, c, m, []);
    assert b + [] == b;
    var body := (U64(c.objects) + (U64(c.used) + U64(c.free))) + Dumped(m);
    assert b + after == ResponseHeader(0, sequence) + (body + after);
    AnswerByTable(table, 0, sequence, body + after);
    assert table[sequence](b + after) == AsDecision(DecodeStatus(b + after));
  }

  /** A response of a fixed size: the header alone with an error id, otherwise the whole size as soon as it is there. */
  lemma FixedAnswered(size: nat, errorId: i32, sequence: u32, after: bytes)
    ensures var b := ResponseHeader(errorId, sequence) + after;
            Framing.FixedResponse(size, b) ==
              if errorId != 0 then Framing.Message(8)
              else if 8 + |after| < size then Framing.More else Framing.Message(size)
  {
    ResponseLayout(errorId, sequence, after);
    FourBytes(ResponseHeader(errorId, sequence) + after);
    hide ResponseHeader, Word;
  }

  /** A request begins with its resource and its request number, two bytes each. */
  lemma RequestLayout(handlers: Framing.Handlers, resource: u16, request: u16, after: bytes)
    ensures var b := U16(resource) + U16(request) + after;
            && Word(b, 0, 2) == resource && Word(b, 2, 2) == request
            && Framing.HandlerOf(handlers, b) == handlers(resource, request)
            && (handlers(resource, request).Missing? ==> Framing.FixedRequest(handlers, b) == Framing.Bad)
            && (handlers(resource, request).Fixed? ==>
                  var size := handlers(resource, request).size;
                  Framing.FixedRequest(handlers, b) == if 4 + |after| < size then Framing.More else Framing.Message(size))
  {
    var b := U16(resource) + U16(request) + after;
    assert b[0] == resource % 256 && b[1] == resource / 256 && b[2] == request % 256 && b[3] == request / 256;
    WordOfTwo(b, 0);
    WordOfTwo(b, 2);
  }
}
