/** The map of object services and its wire format (libs/cluster/ClusterMap.c). */
module ClusterMap {
  import opened Bytes

  const WRAP := 0x1_0000_0000
  const HOST_BYTES := 128  // NETWORK_HOST_LEN and its terminator

  type u16 = x: int | 0 <= x < 0x1_0000
  type u32 = x: int | 0 <= x < 0x1_0000_0000
  type i8 = x: int | -0x80 <= x < 0x80
  type i32 = x: int | -0x8000_0000 <= x < 0x8000_0000

  datatype BSet = BSet(id: u32, services: seq<u32>)

  datatype Service = Service(id: u32, host: bytes, port: i32, status: i8, bsets: seq<u32>)

  datatype OSMap = OSMap(version: u32, replicas: u16, bsets: seq<BSet>, services: seq<Service>)

  /** The sizes fit their fields, every set has its replicas and every host its bytes. */
  predicate Proper(m: OSMap) {
    && |m.bsets| < WRAP && |m.services| < WRAP
    && (forall s :: s in m.bsets ==> |s.services| == m.replicas)
    && (forall s :: s in m.services ==> ProperService(s))
  }

  predicate ProperService(s: Service) {
    |s.host| == HOST_BYTES && |s.bsets| < WRAP
  }

  /** No two services share an id. */
  predicate UniqueIds(m: OSMap) {
    forall i, j :: 0 <= i < j < |m.services| ==> m.services[i].id != m.services[j].id
  }

  // ---- the format ----

  function U16(v: u16): (b: bytes)
    ensures |b| == 2
  {
    [v % 256, v / 256]
  }

  function U32(v: u32): (b: bytes)
    ensures |b| == 4
  {
    [v % 256, v / 256 % 256, v / 65536 % 256, v / 16777216]
  }

  function Unsigned(v: i32): u32 {
    if v < 0 then v + WRAP else v
  }

  function Signed(v: u32): i32 {
    if v < 0x8000_0000 then v else v - WRAP
  }

  function Words(ws: seq<u32>): (b: bytes)
    ensures |b| == 4 * |ws|
  {
    if ws == [] then [] else U32(ws[0]) + Words(ws[1..])
  }

  function BSetBytes(s: BSet): (b: bytes)
    ensures |b| == 4 + 4 * |s.services|
  {
    U32(s.id) + Words(s.services)
  }

  function BSetsBytes(ss: seq<BSet>): bytes {
    if ss == [] then [] else BSetBytes(ss[0]) + BSetsBytes(ss[1..])
  }

  function StatusByte(s: i8): byte {
    if s < 0 then s + 256 else s
  }

  function ByteStatus(b: byte): i8 {
    var v: int := b;
    if v < 128 then v else v - 256
  }

  function ServiceBytes(s: Service): (b: bytes)
    ensures |b| == 13 + |s.host| + 4 * |s.bsets|
  {
    U32(s.id) + (s.host + (U32(Unsigned(s.port)) + ([StatusByte(s.status)] + (U32(|s.bsets| % WRAP) + Words(s.bsets)))))
  }

  function ServicesBytes(ss: seq<Service>): bytes {
    if ss == [] then [] else ServiceBytes(ss[0]) + ServicesBytes(ss[1..])
  }

  function HeaderBytes(m: OSMap): (b: bytes)
    ensures |b| == 14
  {
    U32(m.version) + (U32(|m.bsets| % WRAP) + (U16(m.replicas) + U32(|m.services| % WRAP)))
  }

  function Dumped(m: OSMap): bytes {
    HeaderBytes(m) + (BSetsBytes(m.bsets) + ServicesBytes(m.services))
  }

  // ---- reading it back ----

  /** A value and where reading goes on; input that ends too early; a service id met twice. */
  datatype Read<T> = Read(value: T, next: nat) | Short | Repeated

  function U16At(b: bytes, at: nat): (v: u16)
    requires at + 2 <= |b|
  {
    b[at] as int + 256 * (b[at + 1] as int)
  }

  function U32At(b: bytes, at: nat): (v: u32)
    requires at + 4 <= |b|
  {
    b[at] as int + 256 * (b[at + 1] as int) + 65536 * (b[at + 2] as int) + 16777216 * (b[at + 3] as int)
  }

  function WordsAt(b: bytes, at: nat, n: nat): Read<seq<u32>>
    decreases n
  {
    if n == 0 then Read([], at)
    else if at + 4 > |b| then Short
    else
      match WordsAt(b, at + 4, n - 1)
      case Read(ws, next) => Read([U32At(b, at)] + ws, next)
      case other => other
  }

  function BSetAt(b: bytes, at: nat, replicas: nat): Read<BSet> {
    if at + 4 > |b| then Short
    else
      match WordsAt(b, at + 4, replicas)
      case Read(ws, next) => Read(BSet(U32At(b, at), ws), next)
      case _ => Short
  }

  function BSetsAt(b: bytes, at: nat, n: nat, replicas: nat): Read<seq<BSet>>
    decreases n
  {
    if n == 0 then Read([], at)
    else
      match BSetAt(b, at, replicas)
      case Read(s, next) =>
        (match BSetsAt(b, next, n - 1, replicas)
         case Read(ss, end) => Read([s] + ss, end)
         case _ => Short)
      case _ => Short
  }

  function ServiceAt(b: bytes, at: nat): Read<Service> {
    if at + 141 > |b| then Short
    else
      match WordsAt(b, at + 141, U32At(b, at + 137))
      case Read(ws, next) =>
        Read(Service(U32At(b, at), b[at + 4..at + 132], Signed(U32At(b, at + 132)),
                     ByteStatus(b[at + 136]), ws), next)
      case _ => Short
  }

  function ServicesAt(b: bytes, at: nat, n: nat, seen: set<u32>): Read<seq<Service>>
    decreases n
  {
    if n == 0 then Read([], at)
    else
      match ServiceAt(b, at)
      case Read(s, next) =>
        if s.id in seen then Repeated
        else
          (match ServicesAt(b, next, n - 1, seen + {s.id})
           case Read(ss, end) => Read([s] + ss, end)
           case Short => Short
           case Repeated => Repeated)
      case _ => Short
  }

  function MapAt(b: bytes, at: nat): Read<OSMap> {
    if at + 14 > |b| then Short
    else
      var replicas := U16At(b, at + 8);
      match BSetsAt(b, at + 14, U32At(b, at + 4), replicas)
      case Read(bsets, next) =>
        (match ServicesAt(b, next, U32At(b, at + 10), {})
         case Read(services, end) => Read(OSMap(U32At(b, at), replicas, bsets, services), end)
         case Short => Short
         case Repeated => Repeated)
      case _ => Short
  }

  // ---- a piece of the input ----

  predicate Holds(b: bytes, at: nat, piece: bytes) {
    at + |piece| <= |b| && b[at..at + |piece|] == piece
  }

  lemma HoldsBoth(b: bytes, at: nat, p: bytes, q: bytes)
    ensures Holds(b, at, p + q) <==> Holds(b, at, p) && Holds(b, at + |p|, q)
  {
    if at + |p| + |q| <= |b| {
      assert b[at..at + |p + q|] == b[at..at + |p|] + b[at + |p|..at + |p| + |q|];
      assert (p + q)[..|p|] == p && (p + q)[|p|..] == q;
    }
  }

  lemma HoldsU16(b: bytes, at: nat, v: u16)
    ensures Holds(b, at, U16(v)) <==> at + 2 <= |b| && U16At(b, at) == v
  {
    if at + 2 <= |b| {
      assert b[at..at + 2] == [b[at], b[at + 1]];
    }
  }

  lemma HoldsU32(b: bytes, at: nat, v: u32)
    ensures Holds(b, at, U32(v)) <==> at + 4 <= |b| && U32At(b, at) == v
  {
    if at + 4 <= |b| {
      assert b[at..at + 4] == [b[at], b[at + 1], b[at + 2], b[at + 3]];
      Digits(b[at], b[at + 1], b[at + 2], b[at + 3]);
      var w := U32At(b, at);
      assert U32(w) == [b[at], b[at + 1], b[at + 2], b[at + 3]];
      if U32(v) == U32(w) {
        SameWord(v, w);
      }
    }
  }

  lemma Digits(a: int, b: int, c: int, d: int)
    requires 0 <= a < 256 && 0 <= b < 256 && 0 <= c < 256 && 0 <= d < 256
    ensures var v := a + 256 * b + 65536 * c + 16777216 * d;
            v % 256 == a && v / 256 % 256 == b && v / 65536 % 256 == c && v / 16777216 == d
  {
    var v := a + 256 * b + 65536 * c + 16777216 * d;
    assert v / 256 == b + 256 * c + 65536 * d;
    assert v / 65536 == c + 256 * d;
  }

  lemma SameWord(v: u32, w: u32)
    requires U32(v) == U32(w)
    ensures v == w
  {
    assert U32(v)[0] == U32(w)[0] && U32(v)[1] == U32(w)[1] && U32(v)[2] == U32(w)[2] && U32(v)[3] == U32(w)[3];
    Spelled(v);
    Spelled(w);
  }

  lemma Spelled(v: u32)
    ensures var b := U32(v); v == b[0] as int + 256 * (b[1] as int) + 65536 * (b[2] as int) + 16777216 * (b[3] as int)
  {
  }

  // ---- reading undoes dumping, and accepts nothing else ----

  lemma {:induction false} WordsRead(b: bytes, at: nat, ws: seq<u32>)
    requires at <= |b|
    ensures Holds(b, at, Words(ws)) <==> WordsAt(b, at, |ws|) == Read(ws, at + 4 * |ws|)
    decreases |ws|
  {
    hide U32, U32At;
    if ws != [] {
      HoldsBoth(b, at, U32(ws[0]), Words(ws[1..]));
      HoldsU32(b, at, ws[0]);
      if at + 4 <= |b| {
        WordsRead(b, at + 4, ws[1..]);
        assert ws == [ws[0]] + ws[1..];
      }
    }
  }

  lemma {:induction false} WordsAtHolds(b: bytes, at: nat, n: nat)
    requires at <= |b| && WordsAt(b, at, n).Read?
    ensures var r := WordsAt(b, at, n); |r.value| == n && r.next == at + 4 * n && Holds(b, at, Words(r.value))
    decreases n
  {
    if n > 0 {
      WordsAtHolds(b, at + 4, n - 1);
    }
    WordsRead(b, at, WordsAt(b, at, n).value);
  }

  lemma BSetRead(b: bytes, at: nat, s: BSet)
    requires at <= |b|
    ensures Holds(b, at, BSetBytes(s)) <==> BSetAt(b, at, |s.services|) == Read(s, at + |BSetBytes(s)|)
  {
    hide U32, U32At, Words;
    HoldsBoth(b, at, U32(s.id), Words(s.services));
    HoldsU32(b, at, s.id);
    if at + 4 <= |b| {
      WordsRead(b, at + 4, s.services);
    }
  }

  lemma BSetAtHolds(b: bytes, at: nat, replicas: nat)
    requires at <= |b| && BSetAt(b, at, replicas).Read?
    ensures var r := BSetAt(b, at, replicas);
            |r.value.services| == replicas && r.next == at + |BSetBytes(r.value)| && Holds(b, at, BSetBytes(r.value))
  {
    hide U32, U32At, Words;
    WordsAtHolds(b, at + 4, replicas);
    BSetRead(b, at, BSetAt(b, at, replicas).value);
  }

  lemma {:induction false} BSetsRead(b: bytes, at: nat, ss: seq<BSet>, replicas: nat)
    requires at <= |b| && (forall s :: s in ss ==> |s.services| == replicas)
    requires Holds(b, at, BSetsBytes(ss))
    ensures BSetsAt(b, at, |ss|, replicas) == Read(ss, at + |BSetsBytes(ss)|)
    decreases |ss|
  {
    hide BSetBytes, BSetAt, BSetsAt, Holds;
    if ss == [] {
      BSetsAtNone(b, at, replicas);
    } else {
      HoldsBoth(b, at, BSetBytes(ss[0]), BSetsBytes(ss[1..]));
      BSetRead(b, at, ss[0]);
      HoldsFits(b, at, BSetBytes(ss[0]));
      BSetsRead(b, at + |BSetBytes(ss[0])|, ss[1..], replicas);
      BSetsAtFirst(b, at, |ss|, replicas);
      assert ss == [ss[0]] + ss[1..];
    }
  }

  lemma BSetsAtNone(b: bytes, at: nat, replicas: nat)
    ensures BSetsAt(b, at, 0, replicas) == Read([], at)
  {
  }

  lemma BSetsAtFirst(b: bytes, at: nat, n: nat, replicas: nat)
    requires n > 0 && BSetAt(b, at, replicas).Read? && BSetsAt(b, BSetAt(b, at, replicas).next, n - 1, replicas).Read?
    ensures var first := BSetAt(b, at, replicas);
            var rest := BSetsAt(b, first.next, n - 1, replicas);
            BSetsAt(b, at, n, replicas) == Read([first.value] + rest.value, rest.next)
  {
  }

  lemma {:induction false} BSetsAtHolds(b: bytes, at: nat, n: nat, replicas: nat)
    requires at <= |b| && BSetsAt(b, at, n, replicas).Read?
    ensures var r := BSetsAt(b, at, n, replicas);
            && |r.value| == n && (forall s :: s in r.value ==> |s.services| == replicas)
            && r.next == at + |BSetsBytes(r.value)| && Holds(b, at, BSetsBytes(r.value))
    decreases n
  {
    hide BSetBytes, BSetAt;
    if n > 0 {
      BSetAtHolds(b, at, replicas);
      var first := BSetAt(b, at, replicas);
      BSetsAtHolds(b, first.next, n - 1, replicas);
      HoldsBoth(b, at, BSetBytes(first.value), BSetsBytes(BSetsAt(b, first.next, n - 1, replicas).value));
    }
  }

  lemma HoldsPlain(b: bytes, at: nat, piece: bytes)
    requires at + |piece| <= |b|
    ensures Holds(b, at, piece) <==> b[at..at + |piece|] == piece
  {
  }

  lemma StatusRead(b: bytes, at: nat, s: i8)
    requires at < |b|
    ensures Holds(b, at, [StatusByte(s)]) <==> ByteStatus(b[at]) == s
  {
    assert b[at..at + 1] == [b[at]];
  }

  lemma ServiceSplit(b: bytes, at: nat, s: Service)
    requires ProperService(s) && at + 141 <= |b|
    ensures Holds(b, at, ServiceBytes(s)) <==>
              && U32At(b, at) == s.id && b[at + 4..at + 132] == s.host && U32At(b, at + 132) == Unsigned(s.port)
              && ByteStatus(b[at + 136]) == s.status && U32At(b, at + 137) == |s.bsets| && Holds(b, at + 141, Words(s.bsets))
  {
    hide U32, U32At, Words, Unsigned, StatusByte, ByteStatus, Holds;
    var e := U32(|s.bsets| % WRAP) + Words(s.bsets);
    var d := [StatusByte(s.status)] + e;
    var c := U32(Unsigned(s.port)) + d;
    HoldsBoth(b, at, U32(s.id), s.host + c);
    HoldsU32(b, at, s.id);
    HoldsBoth(b, at + 4, s.host, c);
    HoldsPlain(b, at + 4, s.host);
    HoldsBoth(b, at + 132, U32(Unsigned(s.port)), d);
    HoldsU32(b, at + 132, Unsigned(s.port));
    HoldsBoth(b, at + 136, [StatusByte(s.status)], e);
    StatusRead(b, at + 136, s.status);
    HoldsBoth(b, at + 137, U32(|s.bsets| % WRAP), Words(s.bsets));
    HoldsU32(b, at + 137, |s.bsets| % WRAP);
  }

  lemma SignedUnsigned(v: i32, w: u32)
    ensures Signed(Unsigned(v)) == v
    ensures Unsigned(Signed(w)) == w
  {
  }

  lemma ServiceRead(b: bytes, at: nat, s: Service)
    requires ProperService(s) && Holds(b, at, ServiceBytes(s))
    ensures ServiceAt(b, at) == Read(s, at + |ServiceBytes(s)|)
  {
    ServiceSplit(b, at, s);
    WordsRead(b, at + 141, s.bsets);
    SignedUnsigned(s.port, 0);
  }

  lemma ServiceAtHolds(b: bytes, at: nat)
    requires ServiceAt(b, at).Read?
    ensures var r := ServiceAt(b, at);
            ProperService(r.value) && r.next == at + |ServiceBytes(r.value)| && Holds(b, at, ServiceBytes(r.value))
  {
    hide U32At, ServiceBytes;
    WordsAtHolds(b, at + 141, U32At(b, at + 137));
    SignedUnsigned(0, U32At(b, at + 132));
    ServiceSplit(b, at, ServiceAt(b, at).value);
  }

  /** No id of a list repeats, nor stands among those already seen. */
  predicate AllNew(ss: seq<Service>, seen: set<u32>)
    decreases |ss|
  {
    ss == [] || (ss[0].id !in seen && AllNew(ss[1..], seen + {ss[0].id}))
  }

  lemma {:induction false} ServicesRead(b: bytes, at: nat, ss: seq<Service>, seen: set<u32>)
    requires at <= |b| && AllNew(ss, seen) && (forall s :: s in ss ==> ProperService(s))
    requires Holds(b, at, ServicesBytes(ss))
    ensures ServicesAt(b, at, |ss|, seen) == Read(ss, at + |ServicesBytes(ss)|)
    decreases |ss|
  {
    hide ServiceBytes, ServiceAt, ServicesAt, Holds;
    if ss == [] {
      ServicesAtNone(b, at, seen);
    } else {
      HoldsBoth(b, at, ServiceBytes(ss[0]), ServicesBytes(ss[1..]));
      ServiceRead(b, at, ss[0]);
      HoldsFits(b, at, ServiceBytes(ss[0]));
      ServicesRead(b, at + |ServiceBytes(ss[0])|, ss[1..], seen + {ss[0].id});
      ServicesAtFirst(b, at, |ss|, seen);
      assert ss == [ss[0]] + ss[1..];
    }
  }

  lemma HoldsFits(b: bytes, at: nat, piece: bytes)
    requires Holds(b, at, piece)
    ensures at + |piece| <= |b|
  {
  }

  lemma ServicesAtNone(b: bytes, at: nat, seen: set<u32>)
    ensures ServicesAt(b, at, 0, seen) == Read([], at)
  {
  }

  lemma ServicesAtFirst(b: bytes, at: nat, n: nat, seen: set<u32>)
    requires n > 0 && ServiceAt(b, at).Read? && ServiceAt(b, at).value.id !in seen
    requires ServicesAt(b, ServiceAt(b, at).next, n - 1, seen + {ServiceAt(b, at).value.id}).Read?
    ensures var first := ServiceAt(b, at);
            var rest := ServicesAt(b, first.next, n - 1, seen + {first.value.id});
            ServicesAt(b, at, n, seen) == Read([first.value] + rest.value, rest.next)
  {
  }

  lemma {:induction false} ServicesAtHolds(b: bytes, at: nat, n: nat, seen: set<u32>)
    requires at <= |b| && ServicesAt(b, at, n, seen).Read?
    ensures var r := ServicesAt(b, at, n, seen);
            && |r.value| == n && (forall s :: s in r.value ==> ProperService(s)) && AllNew(r.value, seen)
            && r.next == at + |ServicesBytes(r.value)| && Holds(b, at, ServicesBytes(r.value))
    decreases n
  {
    hide ServiceBytes, ServiceAt;
    if n > 0 {
      ServiceAtHolds(b, at);
      var first := ServiceAt(b, at);
      ServicesAtHolds(b, first.next, n - 1, seen + {first.value.id});
      var rest := ServicesAt(b, first.next, n - 1, seen + {first.value.id}).value;
      HoldsBoth(b, at, ServiceBytes(first.value), ServicesBytes(rest));
      assert ([first.value] + rest)[1..] == rest;
    }
  }

  lemma {:induction false} AllNewIsUnique(ss: seq<Service>, seen: set<u32>)
    ensures AllNew(ss, seen) <==>
              (forall i :: 0 <= i < |ss| ==> ss[i].id !in seen) && (forall i, j :: 0 <= i < j < |ss| ==> ss[i].id != ss[j].id)
    decreases |ss|
  {
    if ss != [] {
      AllNewIsUnique(ss[1..], seen + {ss[0].id});
      assert forall i :: 1 <= i < |ss| ==> ss[i] == ss[1..][i - 1];
    }
  }

  lemma HeaderSplit(b: bytes, at: nat, m: OSMap)
    requires Proper(m) && at + 14 <= |b|
    ensures Holds(b, at, HeaderBytes(m)) <==>
              && U32At(b, at) == m.version && U32At(b, at + 4) == |m.bsets| && U16At(b, at + 8) == m.replicas
              && U32At(b, at + 10) == |m.services|
  {
    hide U32, U32At, U16, U16At;
    var d := U16(m.replicas) + U32(|m.services| % WRAP);
    HoldsBoth(b, at, U32(m.version), U32(|m.bsets| % WRAP) + d);
    HoldsU32(b, at, m.version);
    HoldsBoth(b, at + 4, U32(|m.bsets| % WRAP), d);
    HoldsU32(b, at + 4, |m.bsets| % WRAP);
    HoldsBoth(b, at + 8, U16(m.replicas), U32(|m.services| % WRAP));
    HoldsU16(b, at + 8, m.replicas);
    HoldsU32(b, at + 10, |m.services| % WRAP);
  }

  /** The parser accepts a piece of input, with this map and this length, exactly if the dump of that map
      stands there, and the map is one that can be represented. */
  lemma ParseInvertsDump(b: bytes, at: nat, m: OSMap, next: nat)
    requires at <= |b|
    ensures MapAt(b, at) == Read(m, next) <==>
              Proper(m) && UniqueIds(m) && next == at + |Dumped(m)| && Holds(b, at, Dumped(m))
  {
    hide HeaderBytes, BSetsBytes, ServicesBytes, BSetsAt, ServicesAt, U32At, U16At, AllNew;
    if MapAt(b, at) == Read(m, next) {
      BSetsAtHolds(b, at + 14, U32At(b, at + 4), U16At(b, at + 8));
      ServicesAtHolds(b, BSetsAt(b, at + 14, U32At(b, at + 4), U16At(b, at + 8)).next, U32At(b, at + 10), {});
      AllNewIsUnique(m.services, {});
      HeaderSplit(b, at, m);
      HoldsBoth(b, at, HeaderBytes(m), BSetsBytes(m.bsets) + ServicesBytes(m.services));
      HoldsBoth(b, at + 14, BSetsBytes(m.bsets), ServicesBytes(m.services));
    } else if Proper(m) && UniqueIds(m) && next == at + |Dumped(m)| && Holds(b, at, Dumped(m)) {
      HoldsBoth(b, at, HeaderBytes(m), BSetsBytes(m.bsets) + ServicesBytes(m.services));
      HoldsBoth(b, at + 14, BSetsBytes(m.bsets), ServicesBytes(m.services));
      HeaderSplit(b, at, m);
      AllNewIsUnique(m.services, {});
      BSetsRead(b, at + 14, m.bsets, m.replicas);
      ServicesRead(b, at + 14 + |BSetsBytes(m.bsets)|, m.services, {});
    }
  }

  lemma HoldsStays(b: bytes, c: bytes, at: nat, piece: bytes)
    requires Holds(b, at, piece)
    ensures Holds(b + c, at, piece)
  {
    assert (b + c)[at..at + |piece|] == b[at..at + |piece|];
  }

  /** A dump, whatever follows it, is read back whole; what follows is left alone. */
  lemma DumpParsesBack(m: OSMap, after: bytes)
    requires Proper(m) && UniqueIds(m)
    ensures MapAt(Dumped(m) + after, 0) == Read(m, |Dumped(m)|)
  {
    var b := Dumped(m) + after;
    assert b[0..|Dumped(m)|] == Dumped(m);
    ParseInvertsDump(b, 0, m, |Dumped(m)|);
  }

  lemma {:induction false} RepeatedStays(b: bytes, c: bytes, at: nat, n: nat, seen: set<u32>)
    requires at <= |b| && ServicesAt(b, at, n, seen).Repeated?
    ensures ServicesAt(b + c, at, n, seen).Repeated?
    decreases n
  {
    hide ServiceAt, ServiceBytes;
    var first := ServiceAt(b, at);
    ServiceAtHolds(b, at);
    HoldsStays(b, c, at, ServiceBytes(first.value));
    ServiceRead(b + c, at, first.value);
    if first.value.id !in seen {
      RepeatedStays(b, c, first.next, n - 1, seen + {first.value.id});
    }
  }

  lemma SameHeader(b: bytes, c: bytes)
    requires |b| >= 14
    ensures U32At(b + c, 0) == U32At(b, 0) && U32At(b + c, 4) == U32At(b, 4) && U16At(b + c, 8) == U16At(b, 8)
    ensures U32At(b + c, 10) == U32At(b, 10)
  {
  }

  /** More input never changes an answer other than that there is too little. */
  lemma AnswerStays(b: bytes, c: bytes)
    requires !MapAt(b, 0).Short?
    ensures MapAt(b + c, 0) == MapAt(b, 0)
  {
    var r := MapAt(b, 0);
    if r.Read? {
      ParseInvertsDump(b, 0, r.value, r.next);
      HoldsStays(b, c, 0, Dumped(r.value));
      ParseInvertsDump(b + c, 0, r.value, r.next);
    } else {
      RepetitionStays(b, c);
    }
  }

  lemma RepetitionStays(b: bytes, c: bytes)
    requires MapAt(b, 0).Repeated?
    ensures MapAt(b + c, 0).Repeated?
  {
    hide BSetsAt, ServicesAt, BSetsBytes, U32At, U16At, Holds;
    SameHeader(b, c);
    var n, replicas := U32At(b, 4), U16At(b, 8);
    BSetsAtHolds(b, 14, n, replicas);
    var bsets := BSetsAt(b, 14, n, replicas);
    HoldsFits(b, 14, BSetsBytes(bsets.value));
    HoldsStays(b, c, 14, BSetsBytes(bsets.value));
    BSetsRead(b + c, 14, bsets.value, replicas);
    RepeatedStays(b, c, bsets.next, U32At(b, 10), {});
  }

  /** Every strict prefix of a dump is refused as too short. */
  lemma PrefixIsShort(m: OSMap, k: nat)
    requires Proper(m) && UniqueIds(m) && k < |Dumped(m)|
    ensures MapAt(Dumped(m)[..k], 0).Short?
  {
    var b, c := Dumped(m)[..k], Dumped(m)[k..];
    assert b + c == Dumped(m) + [];
    DumpParsesBack(m, []);
    if !MapAt(b, 0).Short? {
      AnswerStays(b, c);
      ParseInvertsDump(b, 0, m, |Dumped(m)|);
    }
  }

  /** Different maps have different dumps, even if more follows. */
  lemma DumpIsPrefixFree(m: OSMap, n: OSMap, after: bytes)
    requires Proper(m) && UniqueIds(m) && Proper(n) && UniqueIds(n) && Dumped(m) == Dumped(n) + after
    ensures m == n && after == []
  {
    DumpParsesBack(n, after);
    DumpParsesBack(m, []);
    assert Dumped(m) + [] == Dumped(m);
  }

  // ---- the length, as the code computes it ----

  function Total(ss: seq<Service>): nat {
    if ss == [] then 0 else 4 * |ss[0].bsets| + Total(ss[1..])
  }

  /** The part computed in 32-bit arithmetic. */
  function FixedPart(m: OSMap): nat {
    14 + |m.bsets| * (4 + m.replicas * 4) + |m.services| * 141
  }

  function TotalWrapped(ss: seq<Service>): nat {
    if ss == [] then 0 else 4 * |ss[0].bsets| % WRAP + TotalWrapped(ss[1..])
  }

  function DumpLength(m: OSMap): nat {
    FixedPart(m) % WRAP + TotalWrapped(m.services)
  }

  lemma {:induction false} BSetsLength(ss: seq<BSet>, replicas: nat)
    requires forall s :: s in ss ==> |s.services| == replicas
    ensures |BSetsBytes(ss)| == |ss| * (4 + replicas * 4)
  {
    hide BSetBytes;
    if ss != [] {
      BSetsLength(ss[1..], replicas);
      OneMore(|ss|, 4 + replicas * 4);
    }
  }

  lemma OneMore(n: nat, w: nat)
    requires n > 0
    ensures n * w == w + (n - 1) * w
  {
  }

  lemma {:induction false} ServicesLength(ss: seq<Service>)
    requires forall s :: s in ss ==> ProperService(s)
    ensures |ServicesBytes(ss)| == |ss| * 141 + Total(ss)
  {
    hide ServiceBytes;
    if ss != [] {
      assert ProperService(ss[0]);
      ServicesLength(ss[1..]);
      assert ServicesBytes(ss) == ServiceBytes(ss[0]) + ServicesBytes(ss[1..]);
    }
  }

  lemma {:induction false} TotalIsRight(ss: seq<Service>)
    ensures TotalWrapped(ss) <= Total(ss)
    ensures TotalWrapped(ss) == Total(ss) <==> forall i :: 0 <= i < |ss| ==> 4 * |ss[i].bsets| < WRAP
  {
    if ss != [] {
      TotalIsRight(ss[1..]);
      Wrapped(4 * |ss[0].bsets|);
      if TotalWrapped(ss) == Total(ss) {
        forall i | 0 <= i < |ss| ensures 4 * |ss[i].bsets| < WRAP {
          if i > 0 {
            assert ss[i] == ss[1..][i - 1];
          }
        }
      }
    }
  }

  lemma Wrapped(n: nat)
    ensures n % WRAP <= n && (n % WRAP == n <==> n < WRAP)
  {
  }

  /** The length function is right exactly if none of its 32-bit products wraps around. */
  lemma LengthIsRight(m: OSMap)
    requires Proper(m)
    ensures |Dumped(m)| == FixedPart(m) + Total(m.services)
    ensures DumpLength(m) == |Dumped(m)| <==>
              FixedPart(m) < WRAP && forall i :: 0 <= i < |m.services| ==> 4 * |m.services[i].bsets| < WRAP
  {
    hide HeaderBytes, BSetsBytes, ServicesBytes, Total, TotalWrapped;
    BSetsLength(m.bsets, m.replicas);
    ServicesLength(m.services);
    TotalIsRight(m.services);
    Wrapped(FixedPart(m));
  }
}
