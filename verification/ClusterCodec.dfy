/** The code that writes and reads the map of object services, and the two responses that carry it
    (libs/cluster/ClusterMap.c, services/mon/server/cluster/ClusterHandler.c,
    services/mon/client/cluster/ClusterSender.c). */
module ClusterCodec {
  import opened Bytes
  import opened ClusterMap
  import Framing

  // ---- responses ----

  datatype MapResponse = MapResponse(errorId: i32, sequence: u32, osMap: Option<OSMap>)

  const RESPONSE_HEADER := 8
  const STATUS_HEADER := 32

  function ResponseHeader(errorId: i32, sequence: u32): (b: bytes)
    ensures |b| == RESPONSE_HEADER
  {
    U32(Unsigned(errorId)) + U32(sequence)
  }

  function LatestBytes(errorId: i32, sequence: u32, m: OSMap): bytes {
    ResponseHeader(errorId, sequence) + Dumped(m)
  }

  /** The decoder of the latest map: an error id ends the response after its header. */
  function DecodeLatest(b: bytes): Read<MapResponse> {
    if |b| < RESPONSE_HEADER then Short
    else
      var errorId, sequence := Signed(U32At(b, 0)), U32At(b, 4);
      if errorId != 0 then Read(MapResponse(errorId, sequence, None), RESPONSE_HEADER)
      else
        match MapAt(b[RESPONSE_HEADER..], 0)
        case Read(m, next) => Read(MapResponse(errorId, sequence, Some(m)), RESPONSE_HEADER + next)
        case Short => Short
        case Repeated => Repeated
  }

  datatype Counters = Counters(objects: nat, used: nat, free: nat)

  const WIDE := 0x1_0000_0000_0000_0000

  predicate Wide(c: Counters) {
    c.objects < WIDE && c.used < WIDE && c.free < WIDE
  }

  function U64(v: nat): (b: bytes)
    requires v < WIDE
    ensures |b| == 8
  {
    U32(v % WRAP) + U32(v / WRAP)
  }

  datatype StatusResponse = StatusResponse(errorId: i32, sequence: u32, counters: Option<Counters>, osMap: Option<OSMap>)

  function StatusBytes(errorId: i32, sequence: u32, c: Counters, m: OSMap): bytes
    requires Wide(c)
  {
    ResponseHeader(errorId, sequence) + ((U64(c.objects) + (U64(c.used) + U64(c.free))) + Dumped(m))
  }

  /** The decoder of the status: each counter is read through a 32-bit load. */
  function DecodeStatus(b: bytes): Read<StatusResponse> {
    if |b| < RESPONSE_HEADER then Short
    else
      var errorId, sequence := Signed(U32At(b, 0)), U32At(b, 4);
      if errorId != 0 then Read(StatusResponse(errorId, sequence, None, None), RESPONSE_HEADER)
      else if |b| < STATUS_HEADER then Short
      else
        match MapAt(b[STATUS_HEADER..], 0)
        case Read(m, next) =>
          var c := Counters(U32At(b, 8), U32At(b, 16), U32At(b, 24));
          Read(StatusResponse(errorId, sequence, Some(c), Some(m)), STATUS_HEADER + next)
        case Short => Short
        case Repeated => Repeated
  }

  lemma U32Begins(v: u32, after: bytes)
    ensures U32At(U32(v) + after, 0) == v
  {
    HoldsU32(U32(v) + after, 0, v);
    assert (U32(v) + after)[0..4] == U32(v);
  }

  lemma U32Within(before: bytes, v: u32, after: bytes)
    ensures U32At(before + (U32(v) + after), |before|) == v
  {
    var b := before + (U32(v) + after);
    HoldsU32(b, |before|, v);
    assert b[|before|..|before| + 4] == U32(v);
  }

  lemma HeaderReads(errorId: i32, sequence: u32, after: bytes)
    ensures var b := ResponseHeader(errorId, sequence) + after;
            Signed(U32At(b, 0)) == errorId && U32At(b, 4) == sequence && b[RESPONSE_HEADER..] == after
  {
    hide U32, U32At;
    var b := ResponseHeader(errorId, sequence) + after;
    assert b == U32(Unsigned(errorId)) + (U32(sequence) + after);
    U32Begins(Unsigned(errorId), U32(sequence) + after);
    U32Within(U32(Unsigned(errorId)), sequence, after);
    SignedUnsigned(errorId, 0);
  }

  /** A map response is read back with its sequence number and its map, whatever follows it. */
  lemma LatestRoundTrip(sequence: u32, m: OSMap, after: bytes)
    requires Proper(m) && UniqueIds(m)
    ensures DecodeLatest(LatestBytes(0, sequence, m) + after) ==
            Read(MapResponse(0, sequence, Some(m)), |LatestBytes(0, sequence, m)|)
  {
    hide MapAt, Dumped, U32At, ResponseHeader;
    assert LatestBytes(0, sequence, m) + after == ResponseHeader(0, sequence) + (Dumped(m) + after);
    HeaderReads(0, sequence, Dumped(m) + after);
    DumpParsesBack(m, after);
  }

  /** A response with an error id is its header alone, for both decoders. */
  lemma ErrorRoundTrip(errorId: i32, sequence: u32, after: bytes)
    requires errorId != 0
    ensures DecodeLatest(ResponseHeader(errorId, sequence) + after) == Read(MapResponse(errorId, sequence, None), RESPONSE_HEADER)
    ensures DecodeStatus(ResponseHeader(errorId, sequence) + after) == Read(StatusResponse(errorId, sequence, None, None), RESPONSE_HEADER)
  {
    HeaderReads(errorId, sequence, after);
    hide U32At, ResponseHeader;
  }

  lemma CountersRead(head: bytes, c: Counters, after: bytes)
    requires Wide(c) && |head| == RESPONSE_HEADER
    ensures var b := head + ((U64(c.objects) + (U64(c.used) + U64(c.free))) + after);
            && U32At(b, 8) == c.objects % WRAP && U32At(b, 16) == c.used % WRAP && U32At(b, 24) == c.free % WRAP
            && b[STATUS_HEADER..] == after
  {
    hide U32, U32At;
    var b := head + ((U64(c.objects) + (U64(c.used) + U64(c.free))) + after);
    var low1, high1, low2, high2 := U32(c.objects % WRAP), U32(c.objects / WRAP), U32(c.used % WRAP), U32(c.used / WRAP);
    var low3, high3 := U32(c.free % WRAP), U32(c.free / WRAP);
    assert b == head + (low1 + (high1 + (low2 + (high2 + (low3 + (high3 + after))))));
    U32Within(head, c.objects % WRAP, high1 + (low2 + (high2 + (low3 + (high3 + after)))));
    assert b == (head + low1 + high1) + (low2 + (high2 + (low3 + (high3 + after))));
    U32Within(head + low1 + high1, c.used % WRAP, high2 + (low3 + (high3 + after)));
    assert b == (head + low1 + high1 + low2 + high2) + (low3 + (high3 + after));
    U32Within(head + low1 + high1 + low2 + high2, c.free % WRAP, high3 + after);
  }

  /** A status response comes back whole, with its counters cut to 32 bits: unharmed exactly below 2^32. */
  lemma StatusRoundTrip(sequence: u32, c: Counters, m: OSMap, after: bytes)
    requires Proper(m) && UniqueIds(m) && Wide(c)
    ensures var cut := Counters(c.objects % WRAP, c.used % WRAP, c.free % WRAP);
            DecodeStatus(StatusBytes(0, sequence, c, m) + after) ==
            Read(StatusResponse(0, sequence, Some(cut), Some(m)), |StatusBytes(0, sequence, c, m)|)
    ensures DecodeStatus(StatusBytes(0, sequence, c, m) + after) ==
            Read(StatusResponse(0, sequence, Some(c), Some(m)), |StatusBytes(0, sequence, c, m)|)
            <==> c.objects < WRAP && c.used < WRAP && c.free < WRAP
  {
    hide MapAt, Dumped, U32At, ResponseHeader, U64;
    var body := (U64(c.objects) + (U64(c.used) + U64(c.free))) + (Dumped(m) + after);
    assert StatusBytes(0, sequence, c, m) + after == ResponseHeader(0, sequence) + body;
    HeaderReads(0, sequence, body);
    CountersRead(ResponseHeader(0, sequence), c, Dumped(m) + after);
    DumpParsesBack(m, after);
    Wrapped(c.objects);
    Wrapped(c.used);
    Wrapped(c.free);
  }

  // ---- the decoders as the client's parsing loop sees them ----

  function AsDecision<T>(r: Read<T>): Framing.Decision {
    match r
    case Read(_, next) => Framing.Message(next)
    case Short => Framing.More
    case Repeated => Framing.Bad
  }

  lemma LatestStays(b: bytes, c: bytes)
    requires !DecodeLatest(b).Short?
    ensures DecodeLatest(b + c) == DecodeLatest(b)
    ensures DecodeLatest(b).Read? ==> RESPONSE_HEADER <= DecodeLatest(b).next <= |b|
  {
    hide MapAt;
    assert (b + c)[RESPONSE_HEADER..] == b[RESPONSE_HEADER..] + c;
    assert U32At(b + c, 0) == U32At(b, 0) && U32At(b + c, 4) == U32At(b, 4);
    if Signed(U32At(b, 0)) == 0 {
      AnswerStays(b[RESPONSE_HEADER..], c);
      NextWithin(b[RESPONSE_HEADER..]);
    }
  }

  lemma NextWithin(b: bytes)
    ensures MapAt(b, 0).Read? ==> MapAt(b, 0).next <= |b|
  {
    if MapAt(b, 0).Read? {
      ParseInvertsDump(b, 0, MapAt(b, 0).value, MapAt(b, 0).next);
    }
  }

  lemma StatusStays(b: bytes, c: bytes)
    requires !DecodeStatus(b).Short?
    ensures DecodeStatus(b + c) == DecodeStatus(b)
    ensures DecodeStatus(b).Read? ==> RESPONSE_HEADER <= DecodeStatus(b).next <= |b|
  {
    hide MapAt;
    assert U32At(b + c, 0) == U32At(b, 0) && U32At(b + c, 4) == U32At(b, 4);
    if Signed(U32At(b, 0)) == 0 {
      assert (b + c)[STATUS_HEADER..] == b[STATUS_HEADER..] + c;
      AnswerStays(b[STATUS_HEADER..], c);
      NextWithin(b[STATUS_HEADER..]);
    }
  }

  /** The decoders are fit for the framing of the byte stream: more bytes never change an answer. */
  lemma LatestDecoderIsStable()
    ensures Framing.Stable(RESPONSE_HEADER, (b: bytes) => AsDecision(DecodeLatest(b)))
  {
    var decode: Framing.Look := (b: bytes) => AsDecision(DecodeLatest(b));
    forall b: bytes, c: bytes | !Framing.Decide(RESPONSE_HEADER, decode, b).More?
      ensures Framing.Decide(RESPONSE_HEADER, decode, b + c) == Framing.Decide(RESPONSE_HEADER, decode, b)
    {
      LatestStays(b, c);
    }
    forall b: bytes | Framing.Decide(RESPONSE_HEADER, decode, b).Message?
      ensures 0 < Framing.Decide(RESPONSE_HEADER, decode, b).n <= |b|
    {
      LatestStays(b, []);
    }
    hide DecodeLatest;
  }

  /** So is the decoder of the status. */
  lemma StatusDecoderIsStable()
    ensures Framing.Stable(RESPONSE_HEADER, (b: bytes) => AsDecision(DecodeStatus(b)))
  {
    var decode: Framing.Look := (b: bytes) => AsDecision(DecodeStatus(b));
    forall b: bytes, c: bytes | !Framing.Decide(RESPONSE_HEADER, decode, b).More?
      ensures Framing.Decide(RESPONSE_HEADER, decode, b + c) == Framing.Decide(RESPONSE_HEADER, decode, b)
    {
      StatusStays(b, c);
    }
    forall b: bytes | Framing.Decide(RESPONSE_HEADER, decode, b).Message?
      ensures 0 < Framing.Decide(RESPONSE_HEADER, decode, b).n <= |b|
    {
      StatusStays(b, []);
    }
    hide DecodeStatus;
  }

  /** Every strict prefix of a response with a map is refused as too short. */
  lemma ResponsePrefixIsShort(sequence: u32, m: OSMap, c: Counters, k: nat)
    requires Proper(m) && UniqueIds(m) && Wide(c)
    ensures k < |LatestBytes(0, sequence, m)| ==> DecodeLatest(LatestBytes(0, sequence, m)[..k]).Short?
    ensures k < |StatusBytes(0, sequence, c, m)| ==> DecodeStatus(StatusBytes(0, sequence, c, m)[..k]).Short?
  {
    hide DecodeLatest, DecodeStatus, LatestBytes, StatusBytes;
    LatestRoundTrip(sequence, m, []);
    StatusRoundTrip(sequence, c, m, []);
    var latest, status := LatestBytes(0, sequence, m), StatusBytes(0, sequence, c, m);
    assert latest + [] == latest && status + [] == status;
    if k < |latest| && !DecodeLatest(latest[..k]).Short? {
      assert latest[..k] + latest[k..] == latest;
      LatestStays(latest[..k], latest[k..]);
    }
    if k < |status| && !DecodeStatus(status[..k]).Short? {
      assert status[..k] + status[k..] == status;
      StatusStays(status[..k], status[k..]);
    }
  }
}
