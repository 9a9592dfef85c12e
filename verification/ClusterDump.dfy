/** The loops that dump and parse the map of object services in a buffer (libs/cluster/ClusterMap.c), and
    the encoders that put a response header before it (services/mon/server/cluster/ClusterHandler.c). */
module ClusterDump {
  import opened Bytes
  import opened ClusterMap
  import opened ClusterCodec

  /** Stores a piece and moves on; what stands before and behind it stays. */
  method Store(buf: array<byte>, at: nat, piece: bytes) returns (next: nat)
    requires at + |piece| <= buf.Length
    modifies buf
    ensures next == at + |piece|
    ensures buf[..next] == old(buf[..at]) + piece
    ensures forall k :: next <= k < buf.Length ==> buf[k] == old(buf[k])
  {
    for i := 0 to |piece|
      invariant buf[..at + i] == old(buf[..at]) + piece[..i]
      invariant forall k :: at + i <= k < buf.Length ==> buf[k] == old(buf[k])
    {
      buf[at + i] := piece[i];
    }
    next := at + |piece|;
    assert piece[..|piece|] == piece;
  }

  lemma {:induction false} WordsAppend(ws: seq<u32>, w: u32)
    ensures Words(ws + [w]) == Words(ws) + U32(w)
  {
    if ws == [] {
      assert [w][1..] == [];
    } else {
      assert (ws + [w])[1..] == ws[1..] + [w];
      WordsAppend(ws[1..], w);
    }
  }

  lemma {:induction false} BSetsAppend(ss: seq<BSet>, s: BSet)
    ensures BSetsBytes(ss + [s]) == BSetsBytes(ss) + BSetBytes(s)
  {
    hide BSetBytes;
    if ss == [] {
      assert [s][1..] == [];
    } else {
      assert (ss + [s])[1..] == ss[1..] + [s];
      BSetsAppend(ss[1..], s);
    }
  }

  lemma {:induction false} ServicesAppend(ss: seq<Service>, s: Service)
    ensures ServicesBytes(ss + [s]) == ServicesBytes(ss) + ServiceBytes(s)
  {
    hide ServiceBytes;
    if ss == [] {
      assert [s][1..] == [];
    } else {
      assert (ss + [s])[1..] == ss[1..] + [s];
      ServicesAppend(ss[1..], s);
    }
  }

  method StoreWords(buf: array<byte>, at: nat, ws: seq<u32>) returns (next: nat)
    requires at + 4 * |ws| <= buf.Length
    modifies buf
    ensures next == at + |Words(ws)|
    ensures buf[..next] == old(buf[..at]) + Words(ws)
    ensures forall k :: next <= k < buf.Length ==> buf[k] == old(buf[k])
  {
    hide U32;
    next := at;
    for j := 0 to |ws|
      invariant next == at + 4 * j
      invariant buf[..next] == old(buf[..at]) + Words(ws[..j])
      invariant forall k :: next <= k < buf.Length ==> buf[k] == old(buf[k])
    {
      next := Store(buf, next, U32(ws[j]));
      assert ws[..j + 1] == ws[..j] + [ws[j]];
      WordsAppend(ws[..j], ws[j]);
    }
    assert ws[..|ws|] == ws;
  }

  /** clusterMapDumpObjectServiceMapLength, with its 32-bit products. */
  method ComputeLength(m: OSMap) returns (total: nat)
    ensures total == DumpLength(m)
  {
    total := FixedPart(m) % WRAP;
    for i := 0 to |m.services|
      invariant total == FixedPart(m) % WRAP + TotalWrapped(m.services[..i])
    {
      total := total + 4 * |m.services[i].bsets| % WRAP;
      TotalWrappedAppend(m.services[..i], m.services[i]);
      assert m.services[..i + 1] == m.services[..i] + [m.services[i]];
    }
    assert m.services[..|m.services|] == m.services;
  }

  lemma {:induction false} TotalWrappedAppend(ss: seq<Service>, s: Service)
    ensures TotalWrapped(ss + [s]) == TotalWrapped(ss) + 4 * |s.bsets| % WRAP
  {
    if ss == [] {
      assert [s][1..] == [];
    } else {
      assert (ss + [s])[1..] == ss[1..] + [s];
      TotalWrappedAppend(ss[1..], s);
    }
  }

  method StoreBSet(buf: array<byte>, at: nat, s: BSet) returns (next: nat)
    requires at + |BSetBytes(s)| <= buf.Length
    modifies buf
    ensures next == at + |BSetBytes(s)|
    ensures buf[..next] == old(buf[..at]) + BSetBytes(s)
    ensures forall k :: next <= k < buf.Length ==> buf[k] == old(buf[k])
  {
    hide U32, Words;
    next := Store(buf, at, U32(s.id));
    next := StoreWords(buf, next, s.services);
  }

  method StoreService(buf: array<byte>, at: nat, s: Service) returns (next: nat)
    requires ProperService(s) && at + |ServiceBytes(s)| <= buf.Length
    modifies buf
    ensures next == at + |ServiceBytes(s)|
    ensures buf[..next] == old(buf[..at]) + ServiceBytes(s)
    ensures forall k :: next <= k < buf.Length ==> buf[k] == old(buf[k])
  {
    hide U32, Words, Unsigned, StatusByte;
    ghost var head := buf[..at];
    next := Store(buf, at, U32(s.id));
    next := Store(buf, next, s.host);
    next := Store(buf, next, U32(Unsigned(s.port)));
    next := Store(buf, next, [StatusByte(s.status)]);
    next := Store(buf, next, U32(|s.bsets|));
    next := StoreWords(buf, next, s.bsets);
    Regroup(head, U32(s.id), s.host, U32(Unsigned(s.port)), [StatusByte(s.status)], U32(|s.bsets|), Words(s.bsets));
  }

  lemma Regroup(h: bytes, a: bytes, b: bytes, c: bytes, d: bytes, e: bytes, f: bytes)
    ensures h + a + b + c + d + e + f == h + (a + (b + (c + (d + (e + f)))))
  {
  }

  /** clusterMapDumpObjectServiceMap: writes exactly the dump, and its final assertion holds exactly if the
      announced length was right. */
  method Dump(m: OSMap, buf: array<byte>, from: nat) returns (length: nat)
    requires Proper(m) && from + |Dumped(m)| <= buf.Length
    modifies buf
    ensures length == |Dumped(m)|
    ensures buf[..from + length] == old(buf[..from]) + Dumped(m)
    ensures forall k :: from + length <= k < buf.Length ==> buf[k] == old(buf[k])
  {
    hide U32, U16, BSetBytes, ServiceBytes, HeaderBytes, BSetsBytes, ServicesBytes;
    var at := StoreHeader(buf, from, m);
    at := StoreBSets(buf, at, m.bsets);
    at := StoreServices(buf, at, m.services);
    length := at - from;
    ghost var head, a, b, c := old(buf[..from]), HeaderBytes(m), BSetsBytes(m.bsets), ServicesBytes(m.services);
    assert head + a + b + c == head + (a + (b + c));
  }

  method StoreBSets(buf: array<byte>, from: nat, ss: seq<BSet>) returns (next: nat)
    requires from + |BSetsBytes(ss)| <= buf.Length
    modifies buf
    ensures next == from + |BSetsBytes(ss)|
    ensures buf[..next] == old(buf[..from]) + BSetsBytes(ss)
    ensures forall k :: next <= k < buf.Length ==> buf[k] == old(buf[k])
  {
    hide BSetBytes;
    next := from;
    for i := 0 to |ss|
      invariant next == from + |BSetsBytes(ss[..i])| <= buf.Length
      invariant buf[..next] == old(buf[..from]) + BSetsBytes(ss[..i])
      invariant forall k :: next <= k < buf.Length ==> buf[k] == old(buf[k])
    {
      hide BSetsBytes;
      BSetsStep(ss, i);
      next := StoreBSet(buf, next, ss[i]);
    }
    assert ss[..|ss|] == ss;
  }

  method StoreServices(buf: array<byte>, from: nat, ss: seq<Service>) returns (next: nat)
    requires from + |ServicesBytes(ss)| <= buf.Length && forall s :: s in ss ==> ProperService(s)
    modifies buf
    ensures next == from + |ServicesBytes(ss)|
    ensures buf[..next] == old(buf[..from]) + ServicesBytes(ss)
    ensures forall k :: next <= k < buf.Length ==> buf[k] == old(buf[k])
  {
    hide ServiceBytes;
    next := from;
    for i := 0 to |ss|
      invariant next == from + |ServicesBytes(ss[..i])| <= buf.Length
      invariant buf[..next] == old(buf[..from]) + ServicesBytes(ss[..i])
      invariant forall k :: next <= k < buf.Length ==> buf[k] == old(buf[k])
    {
      hide ServicesBytes;
      ServicesStep(ss, i);
      next := StoreService(buf, next, ss[i]);
    }
    assert ss[..|ss|] == ss;
  }

  lemma BSetsStep(ss: seq<BSet>, i: nat)
    requires i < |ss|
    ensures BSetsBytes(ss[..i + 1]) == BSetsBytes(ss[..i]) + BSetBytes(ss[i])
    ensures |BSetsBytes(ss[..i + 1])| <= |BSetsBytes(ss)|
  {
    assert ss[..i + 1] == ss[..i] + [ss[i]];
    BSetsAppend(ss[..i], ss[i]);
    BSetsShorter(ss, i + 1);
  }

  lemma {:induction false} BSetsShorter(ss: seq<BSet>, n: nat)
    requires n <= |ss|
    ensures |BSetsBytes(ss[..n])| <= |BSetsBytes(ss)|
  {
    hide BSetBytes;
    if n > 0 {
      BSetsShorter(ss[1..], n - 1);
      assert ss[..n][1..] == ss[1..][..n - 1];
    }
  }

  lemma ServicesStep(ss: seq<Service>, i: nat)
    requires i < |ss|
    ensures ServicesBytes(ss[..i + 1]) == ServicesBytes(ss[..i]) + ServiceBytes(ss[i])
    ensures |ServicesBytes(ss[..i + 1])| <= |ServicesBytes(ss)|
  {
    assert ss[..i + 1] == ss[..i] + [ss[i]];
    ServicesAppend(ss[..i], ss[i]);
    ServicesShorter(ss, i + 1);
  }

  lemma {:induction false} ServicesShorter(ss: seq<Service>, n: nat)
    requires n <= |ss|
    ensures |ServicesBytes(ss[..n])| <= |ServicesBytes(ss)|
  {
    hide ServiceBytes;
    if n > 0 {
      ServicesShorter(ss[1..], n - 1);
      assert ss[..n][1..] == ss[1..][..n - 1];
    }
  }

  method StoreHeader(buf: array<byte>, at: nat, m: OSMap) returns (next: nat)
    requires Proper(m) && at + 14 <= buf.Length
    modifies buf
    ensures next == at + 14
    ensures buf[..next] == old(buf[..at]) + HeaderBytes(m)
    ensures forall k :: next <= k < buf.Length ==> buf[k] == old(buf[k])
  {
    hide U32, U16;
    next := Store(buf, at, U32(m.version));
    next := Store(buf, next, U32(|m.bsets|));
    next := Store(buf, next, U16(m.replicas));
    next := Store(buf, next, U32(|m.services|));
    Regroup(old(buf[..at]), U32(m.version), U32(|m.bsets|), U16(m.replicas), U32(|m.services|), [], []);
  }

  /** ClusterResponseEncoderGetLatestObjectServiceMap: the map first, then the header before it.  None where the
      computed length has wrapped: the dump would not fit the memory allocated for it. */
  method EncodeLatest(sequence: u32, m: OSMap) returns (buf: Option<array<byte>>)
    requires Proper(m)
    ensures buf.Some? <==> DumpLength(m) == |Dumped(m)|
    ensures buf.Some? ==> fresh(buf.value) && buf.value[..] == LatestBytes(0, sequence, m)
  {
    var length := ComputeLength(m);
    var target := new byte[RESPONSE_HEADER + length];
    buf := EncodeBehind(ResponseHeader(0, sequence), m, target);
  }

  /** ClusterResponseEncoderStatus, likewise. */
  method EncodeStatus(sequence: u32, c: Counters, m: OSMap) returns (buf: Option<array<byte>>)
    requires Proper(m) && Wide(c)
    ensures buf.Some? <==> DumpLength(m) == |Dumped(m)|
    ensures buf.Some? ==> fresh(buf.value) && buf.value[..] == StatusBytes(0, sequence, c, m)
  {
    var length := ComputeLength(m);
    var target := new byte[STATUS_HEADER + length];
    var counters := U64(c.objects) + (U64(c.used) + U64(c.free));
    buf := EncodeBehind(ResponseHeader(0, sequence) + counters, m, target);
    assert ResponseHeader(0, sequence) + counters + Dumped(m) == ResponseHeader(0, sequence) + (counters + Dumped(m));
  }

  method EncodeBehind(header: bytes, m: OSMap, target: array<byte>) returns (buf: Option<array<byte>>)
    requires Proper(m) && target.Length == |header| + DumpLength(m)
    modifies target
    ensures buf == if DumpLength(m) == |Dumped(m)| then Some(target) else None
    ensures buf.Some? ==> target[..] == header + Dumped(m)
  {
    hide Dumped, DumpLength;
    DumpFits(m);
    if target.Length != |header| + |Dumped(m)| {
      return None;
    }
    var length := Dump(m, target, |header|);
    ghost var before := target[..];
    assert before == before[..|header|] + Dumped(m);
    var next := Store(target, 0, header);
    HeaderReplaced(before, target[..], header, Dumped(m));
    buf := Some(target);
  }

  lemma HeaderReplaced(before: bytes, now: bytes, header: bytes, body: bytes)
    requires |header| <= |before| == |now| && before == before[..|header|] + body
    requires now[..|header|] == header && forall k :: |header| <= k < |now| ==> now[k] == before[k]
    ensures now == header + body
  {
    forall k | 0 <= k < |now| ensures now[k] == (header + body)[k] {
      if k < |header| {
        assert now[k] == now[..|header|][k];
      }
    }
  }

  /** The computed length is never too large. */
  lemma DumpFits(m: OSMap)
    requires Proper(m)
    ensures DumpLength(m) <= |Dumped(m)|
  {
    LengthIsRight(m);
    TotalIsRight(m.services);
    Wrapped(FixedPart(m));
  }
}
