/** The bounds-checked parser of the map of object services (libs/cluster/ClusterMap.c). */
module ClusterParse {
  import opened Bytes
  import opened ClusterMap
  import HashMap

  /** What a loop has read so far, before what is still to come. */
  function Before<T>(xs: seq<T>, later: Read<seq<T>>): Read<seq<T>> {
    match later
    case Read(ys, next) => Read(xs + ys, next)
    case other => other
  }

  lemma NothingBefore<T>(later: Read<seq<T>>)
    ensures Before([], later) == later
  {
    assert later.Read? ==> [] + later.value == later.value;
  }

  lemma OneMoreBefore<T>(xs: seq<T>, x: T, later: Read<seq<T>>)
    ensures Before(xs, Before([x], later)) == Before(xs + [x], later)
  {
    assert later.Read? ==> xs + ([x] + later.value) == (xs + [x]) + later.value;
  }

  method ParseWords(buf: array<byte>, at: nat, n: nat) returns (r: Read<seq<u32>>)
    ensures r == WordsAt(buf[..], at, n)
  {
    hide U32At;
    var ws: seq<u32> := [];
    var next: nat := at;
    NothingBefore(WordsAt(buf[..], at, n));
    for j := 0 to n
      invariant WordsAt(buf[..], at, n) == Before(ws, WordsAt(buf[..], next, n - j))
      invariant |ws| == j && next == at + 4 * j
    {
      ghost var later := WordsAt(buf[..], next + 4, n - j - 1);
      if next + 4 > buf.Length {
        return Short;
      }
      var w := Load32(buf, next);
      OneMoreBefore(ws, w, later);
      ws, next := ws + [w], next + 4;
    }
    assert ws + [] == ws;
    r := Read(ws, next);
  }

  method Load32(buf: array<byte>, at: nat) returns (v: u32)
    requires at + 4 <= buf.Length
    ensures v == U32At(buf[..], at)
  {
    v := buf[at] as int + 256 * (buf[at + 1] as int) + 65536 * (buf[at + 2] as int) + 16777216 * (buf[at + 3] as int);
  }

  method Load16(buf: array<byte>, at: nat) returns (v: u16)
    requires at + 2 <= buf.Length
    ensures v == U16At(buf[..], at)
  {
    v := buf[at] as int + 256 * (buf[at + 1] as int);
  }

  method ParseBSets(buf: array<byte>, at: nat, n: nat, replicas: nat) returns (r: Read<seq<BSet>>)
    ensures r == BSetsAt(buf[..], at, n, replicas)
  {
    hide U32At, WordsAt;
    var ss: seq<BSet> := [];
    var next: nat := at;
    NothingBefore(BSetsAt(buf[..], at, n, replicas));
    for i := 0 to n
      invariant BSetsAt(buf[..], at, n, replicas) == Before(ss, BSetsAt(buf[..], next, n - i, replicas))
      invariant |ss| == i
    {
      ghost var here := next;
      if next + 4 > buf.Length {
        return Short;
      }
      var id := Load32(buf, next);
      var ids := ParseWords(buf, next + 4, replicas);
      if !ids.Read? {
        return Short;
      }
      var s := BSet(id, ids.value);
      ghost var later := BSetsAt(buf[..], ids.next, n - i - 1, replicas);
      assert BSetAt(buf[..], here, replicas) == Read(s, ids.next);
      OneMoreBefore(ss, s, later);
      ss, next := ss + [s], ids.next;
    }
    assert ss + [] == ss;
    r := Read(ss, next);
  }

  method ParseService(buf: array<byte>, at: nat) returns (r: Read<Service>)
    ensures r == ServiceAt(buf[..], at)
  {
    hide U32At, WordsAt;
    if at + 4 > buf.Length {
      return Short;
    }
    var id := Load32(buf, at);
    if at + 132 > buf.Length {
      return Short;
    }
    var host := buf[at + 4..at + 132];
    if at + 136 > buf.Length {
      return Short;
    }
    var port := Load32(buf, at + 132);
    if at + 137 > buf.Length {
      return Short;
    }
    var status := ByteStatus(buf[at + 136]);
    if at + 141 > buf.Length {
      return Short;
    }
    var length := Load32(buf, at + 137);
    var bsets := ParseWords(buf, at + 141, length);
    if !bsets.Read? {
      return Short;
    }
    assert host == buf[..][at + 4..at + 132];
    r := Read(Service(id, host, Signed(port), status, bsets.value), bsets.next);
  }

  /** The services, in the order of the list, while each id is new to the map of ids. */
  method ParseServices(buf: array<byte>, at: nat, n: nat) returns (r: Read<seq<Service>>)
    ensures r == ServicesAt(buf[..], at, n, {})
  {
    hide ServiceAt;
    var ss: seq<Service> := [];
    var next: nat := at;
    var seen: set<u32> := {};
    NothingBefore(ServicesAt(buf[..], at, n, {}));
    for i := 0 to n
      invariant ServicesAt(buf[..], at, n, {}) == Before(ss, ServicesAt(buf[..], next, n - i, seen))
    {
      var s := ParseService(buf, next);
      if !s.Read? {
        return Short;
      }
      if s.value.id in seen {
        return Repeated;
      }
      OneMoreBefore(ss, s.value, ServicesAt(buf[..], s.next, n - i - 1, seen + {s.value.id}));
      ss, next, seen := ss + [s.value], s.next, seen + {s.value.id};
    }
    assert ss + [] == ss;
    r := Read(ss, next);
  }

  /** clusterMapParseObjectServiceMap; a repeated id is where the source asserts. */
  method Parse(buf: array<byte>) returns (r: Read<OSMap>)
    ensures r == MapAt(buf[..], 0)
  {
    hide U32At, U16At, BSetsAt, ServicesAt;
    if 4 > buf.Length {
      return Short;
    }
    var version := Load32(buf, 0);
    if 8 > buf.Length {
      return Short;
    }
    var bsetLength := Load32(buf, 4);
    if 10 > buf.Length {
      return Short;
    }
    var replicas := Load16(buf, 8);
    if 14 > buf.Length {
      return Short;
    }
    var serviceLength := Load32(buf, 10);
    var bsets := ParseBSets(buf, 14, bsetLength, replicas);
    if !bsets.Read? {
      return Short;
    }
    var services := ParseServices(buf, bsets.next, serviceLength);
    match services {
      case Read(ss, next) => r := Read(OSMap(version, replicas, bsets.value, ss), next);
      case Short => r := Short;
      case Repeated => r := Repeated;
    }
  }

  /** clusterMapInitOSMap: the number of slots of the map of ids; None where the shift of an int overflows. */
  method SlotCount(services: nat) returns (slots: Option<nat>)
    ensures slots.None? <==> services > 0x4000_0000
    ensures services == 0 ==> slots == Some(0)
    ensures slots.Some? && services > 0 ==>
              HashMap.PowerOfTwo(slots.value) && services <= slots.value < 2 * services + 2
  {
    hide Power, HashMap.PowerOfTwo;
    LargestShift();
    FirstShift();
    var ssize, i := 0, 1;
    while ssize < services
      invariant 1 <= i <= 31 && ssize == (if i == 1 then 0 else Power(i - 1)) && (i > 1 ==> HashMap.PowerOfTwo(ssize))
      invariant ssize < 2 * services + 2 && (services == 0 ==> i == 1)
      decreases 31 - i
    {
      if i == 31 {
        return None;
      }
      ssize := Power(i);
      ShiftOnce(i);
      i := i + 1;
    }
    if i > 1 {
      PowerGrows(i - 1, 30);
    }
    slots := Some(ssize);
  }

  /** 1 << i */
  function Power(i: nat): (p: nat)
    ensures p > 0 && HashMap.PowerOfTwo(p)
  {
    if i == 0 then 1 else 2 * Power(i - 1)
  }

  lemma {:induction false} PowerGrows(i: nat, j: nat)
    requires i <= j
    ensures Power(i) <= Power(j)
    decreases j - i
  {
    if i < j {
      PowerGrows(i, j - 1);
    }
  }

  lemma FiveMore(i: nat)
    ensures Power(i + 5) == 32 * Power(i)
  {
    hide HashMap.PowerOfTwo;
    assert Power(i + 1) == 2 * Power(i) && Power(i + 2) == 2 * Power(i + 1) && Power(i + 3) == 2 * Power(i + 2);
    assert Power(i + 4) == 2 * Power(i + 3);
  }

  lemma LargestShift()
    ensures Power(30) == 0x4000_0000
  {
    hide Power;
    FiveMore(0);
    FiveMore(5);
    FiveMore(10);
    FiveMore(15);
    FiveMore(20);
    FiveMore(25);
    assert Power(0) == 1 by { PowerOfNothing(); }
  }

  lemma FirstShift()
    ensures Power(1) == 2
  {
  }

  lemma ShiftOnce(i: nat)
    requires i >= 1
    ensures Power(i) == 2 * Power(i - 1) && HashMap.PowerOfTwo(Power(i))
  {
  }

  lemma PowerOfNothing()
    ensures Power(0) == 1
  {
  }
}
