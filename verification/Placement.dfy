/** How the monitor spreads the block sets over the object services (libs/cluster/ClusterMapMon.c). */
module Placement {
  import opened Arithmetic
  import opened Bytes
  import opened LinkedList

  const WRAP := 0x1_0000_0000

  /** The number of slots each service gets: the average, rounded up. */
  function Capacity(sets: nat, replicas: nat, services: nat): nat
    requires services > 0
  {
    var total := sets * replicas;
    if total / services * services == total then total / services else total / services + 1
  }

  /** How many of the first `sets` sets belong to service k: those whose index leaves k. */
  function Share(sets: nat, services: nat, k: nat): nat
    requires services > 0
  {
    sets / services + One(k < sets % services)
  }

  /** The condition under which no service gets more than its capacity. */
  predicate Balanced(sets: nat, replicas: nat, services: nat)
    requires services > 0
  {
    sets % services == 0 || replicas * (sets % services) > (replicas - 1) * services
  }

  // ---- arithmetic ----

  lemma NextDiv(l: nat, n: nat)
    requires n > 0
    ensures l % n + 1 < n ==> (l + 1) / n == l / n && (l + 1) % n == l % n + 1
    ensures l % n + 1 == n ==> (l + 1) / n == l / n + 1 && (l + 1) % n == 0
  {
    var q, r := l / n, l % n;
    DivMod(l, n);
    if r + 1 < n {
      DivUnique(l + 1, n, q, r + 1);
    } else {
      OneMoreTime(q, n);
      DivUnique(l + 1, n, q + 1, 0);
    }
  }

  lemma NextShare(l: nat, services: nat, k: nat)
    requires services > 0 && k < services
    ensures Share(l + 1, services, k) == Share(l, services, k) + One(l % services == k)
  {
    DivMod(l, services);
    NextDiv(l, services);
    NextShareBy(l / services, l % services, (l + 1) / services, (l + 1) % services, services, k);
  }

  lemma NextShareBy(q: nat, r: nat, q1: nat, r1: nat, n: nat, k: nat)
    requires k < n && r < n
    requires r + 1 < n ==> q1 == q && r1 == r + 1
    requires r + 1 == n ==> q1 == q + 1 && r1 == 0
    ensures q1 + One(k < r1) == q + One(k < r) + One(r == k)
  {
  }

  /** The largest share is within the capacity exactly if the placement is balanced. */
  lemma ShareFits(sets: nat, replicas: nat, services: nat)
    requires services > 0
    ensures replicas * Share(sets, services, 0) <= Capacity(sets, replicas, services) <==> Balanced(sets, replicas, services)
  {
    DivMod(sets, services);
    var q, r := sets / services, sets % services;
    var total := sets * replicas;
    DivMod(total, services);
    assert total == (q * replicas) * services + r * replicas by {
      assert total == (q * services + r) * replicas;
    }
    Ceiling(total, services, q * replicas, r * replicas);
    if r == 0 {
      assert replicas * Share(sets, services, 0) == q * replicas;
    } else {
      assert replicas * Share(sets, services, 0) == q * replicas + replicas;
      CeilingAtLeast(r * replicas, services, replicas);
    }
  }

  function Ceil(a: nat, n: nat): nat
    requires n > 0
  {
    if a / n * n == a then a / n else a / n + 1
  }

  lemma Ceiling(total: nat, n: nat, whole: nat, rest: nat)
    requires n > 0 && total == whole * n + rest
    ensures Ceil(total, n) == whole + Ceil(rest, n)
  {
    DivMod(rest, n);
    assert total == (whole + rest / n) * n + rest % n;
    DivUnique(total, n, whole + rest / n, rest % n);
    DivMod(total, n);
  }

  lemma CeilingAtLeast(a: nat, n: nat, m: nat)
    requires n > 0
    ensures m <= Ceil(a, n) <==> a > (m - 1) * n
  {
    DivMod(a, n);
    var c := Ceil(a, n);
    if m <= c {
      assert (m - 1) * n <= (c - 1) * n by { Monotone(m - 1, c - 1, n); }
    } else {
      Monotone(c, m - 1, n);
    }
  }


  // ---- what the loops write ----

  /** The set chosen in step i of round j. */
  function Chosen(sets: nat, j: nat, i: nat): (l: nat)
    requires sets > 0
    ensures l < sets
  {
    (j + i) % sets
  }

  /** The sets service k receives in the first `i` steps of round j. */
  function Round(sets: nat, services: nat, k: nat, j: nat, i: nat): seq<nat>
    requires services > 0 && (i > 0 ==> sets > 0)
  {
    if i == 0 then []
    else
      var before, l := Round(sets, services, k, j, i - 1), Chosen(sets, j, i - 1);
      if l % services == k then before + [l] else before
  }

  /** The sets service k receives in all rounds before j. */
  function Rounds(sets: nat, services: nat, k: nat, j: nat): seq<nat>
    requires services > 0
  {
    if j == 0 then [] else Rounds(sets, services, k, j - 1) + Round(sets, services, k, j - 1, sets)
  }

  /** How far into round j set l is chosen. */
  function Position(sets: nat, j: nat, l: nat): nat
    requires l < sets
  {
    var start := j % sets;
    if l >= start then l - start else l - start + sets
  }

  lemma ChosenAt(sets: nat, j: nat, i: nat)
    requires i < sets
    ensures Position(sets, j, Chosen(sets, j, i)) == i
    ensures forall l: nat :: l < sets && Position(sets, j, l) == i ==> l == Chosen(sets, j, i)
  {
    DivMod(j, sets);
    Rotated(j, sets, i);
  }

  lemma Rotated(j: nat, n: nat, i: nat)
    requires i < n
    ensures (j + i) % n == if j % n + i < n then j % n + i else j % n + i - n
  {
    var q, r := j / n, j % n;
    DivMod(j, n);
    if r + i < n {
      DivUnique(j + i, n, q, r + i);
    } else {
      OneMoreTime(q, n);
      DivUnique(j + i, n, q + 1, r + i - n);
    }
  }

  /** A service receives each of its sets once in a round, when the round comes to it. */
  lemma {:induction false} RoundHas(sets: nat, services: nat, k: nat, j: nat, i: nat, l: nat)
    requires services > 0 && i <= sets && l < sets
    ensures multiset(Round(sets, services, k, j, i))[l] == One(l % services == k && Position(sets, j, l) < i)
  {
    hide Chosen, Position;
    if i > 0 {
      RoundHas(sets, services, k, j, i - 1, l);
      ChosenAt(sets, j, i - 1);
    }
  }

  lemma PositionWithin(sets: nat, j: nat, l: nat)
    requires l < sets
    ensures Position(sets, j, l) < sets
  {
    DivMod(j, sets);
  }

  /** In every round a service receives the same sets, whatever the rotation. */
  lemma RoundsAgree(sets: nat, services: nat, k: nat, j: nat)
    requires services > 0
    ensures multiset(Round(sets, services, k, j, sets)) == multiset(Round(sets, services, k, 0, sets))
  {
    var a: seq<nat>, b: seq<nat> := Round(sets, services, k, j, sets), Round(sets, services, k, 0, sets);
    var inA: multiset<nat>, inB: multiset<nat> := multiset(a), multiset(b);
    forall l: nat ensures inA[l] == inB[l] {
      if l < sets {
        RoundHas(sets, services, k, j, sets, l);
        RoundHas(sets, services, k, 0, sets, l);
        PositionWithin(sets, j, l);
        PositionWithin(sets, 0, l);
      } else {
        RoundBelow(sets, services, k, j, sets);
        RoundBelow(sets, services, k, 0, sets);
        assert l !in a && l !in b;
      }
    }
  }

  lemma {:induction false} RoundBelow(sets: nat, services: nat, k: nat, j: nat, i: nat)
    requires services > 0 && i <= sets
    ensures forall l :: l in Round(sets, services, k, j, i) ==> l < sets
  {
    if i > 0 {
      RoundBelow(sets, services, k, j, i - 1);
    }
  }

  lemma {:induction false} FirstRoundLength(sets: nat, services: nat, k: nat, i: nat)
    requires services > 0 && k < services && i <= sets
    ensures |Round(sets, services, k, 0, i)| == Share(i, services, k)
  {
    hide Share;
    if i > 0 {
      FirstRoundLength(sets, services, k, i - 1);
      DivUnique(i - 1, sets, 0, i - 1);
      NextShare(i - 1, services, k);
    } else {
      NoShare(services, k);
    }
  }

  lemma NoShare(services: nat, k: nat)
    requires services > 0
    ensures Share(0, services, k) == 0
  {
  }

  lemma RoundLength(sets: nat, services: nat, k: nat, j: nat)
    requires services > 0 && k < services
    ensures |Round(sets, services, k, j, sets)| == Share(sets, services, k)
  {
    hide Share;
    RoundsAgree(sets, services, k, j);
    SameSize(Round(sets, services, k, j, sets), Round(sets, services, k, 0, sets));
    FirstRoundLength(sets, services, k, sets);
  }

  lemma SameSize(a: seq<nat>, b: seq<nat>)
    requires multiset(a) == multiset(b)
    ensures |a| == |b|
  {
    assert |multiset(a)| == |a| && |multiset(b)| == |b|;
  }

  lemma {:induction false} PartOfRound(sets: nat, services: nat, k: nat, j: nat, i: nat)
    requires services > 0 && i <= sets
    ensures |Round(sets, services, k, j, i)| <= |Round(sets, services, k, j, sets)|
    decreases sets - i
  {
    if i < sets {
      PartOfRound(sets, services, k, j, i + 1);
    }
  }

  lemma {:induction false} RoundsLength(sets: nat, services: nat, k: nat, j: nat)
    requires services > 0 && k < services
    ensures |Rounds(sets, services, k, j)| == j * Share(sets, services, k)
  {
    hide Share, Round;
    if j > 0 {
      RoundsLength(sets, services, k, j - 1);
      RoundLength(sets, services, k, j - 1);
      assert j * Share(sets, services, k) == (j - 1) * Share(sets, services, k) + Share(sets, services, k);
    }
  }

  /** Over all rounds, service k receives each of its own sets once for every replica, and no others. */
  lemma {:induction false} RoundsHave(sets: nat, services: nat, k: nat, j: nat, l: nat)
    requires services > 0 && l < sets
    ensures multiset(Rounds(sets, services, k, j))[l] == if l % services == k then j else 0
  {
    hide Round;
    if j > 0 {
      RoundsHave(sets, services, k, j - 1, l);
      RoundHas(sets, services, k, j - 1, sets, l);
      PositionWithin(sets, j - 1, l);
    }
  }

  function Sum(s: seq<nat>): nat {
    if s == [] then 0 else Sum(s[..|s| - 1]) + s[|s| - 1]
  }

  function Min(a: nat, b: nat): nat {
    if a < b then a else b
  }

  /** All services together hold every replica of every set. */
  lemma AllShares(lengths: seq<nat>, sets: nat, replicas: nat, services: nat)
    requires services > 0 && |lengths| == services
    requires forall k :: 0 <= k < services ==> lengths[k] == replicas * Share(sets, services, k)
    ensures Sum(lengths) == sets * replicas
  {
    SharesSum(lengths, sets, replicas, services);
    DivMod(sets, services);
  }

  lemma {:induction false} SharesSum(lengths: seq<nat>, sets: nat, replicas: nat, services: nat)
    requires services > 0 && |lengths| <= services
    requires forall k :: 0 <= k < |lengths| ==> lengths[k] == replicas * Share(sets, services, k)
    ensures Sum(lengths) == replicas * (|lengths| * (sets / services) + Min(|lengths|, sets % services))
  {
    var n := |lengths|;
    if n > 0 {
      SharesSum(lengths[..n - 1], sets, replicas, services);
      OneMoreShare(n, replicas, sets / services, sets % services);
    }
  }

  lemma OneMoreShare(n: nat, replicas: nat, q: nat, r: nat)
    requires n > 0
    ensures replicas * (n * q + Min(n, r)) == replicas * ((n - 1) * q + Min(n - 1, r)) + replicas * (q + One(n - 1 < r))
  {
    assert n * q == (n - 1) * q + q;
    assert n * q + Min(n, r) == ((n - 1) * q + Min(n - 1, r)) + (q + One(n - 1 < r));
    Distribute(replicas, (n - 1) * q + Min(n - 1, r), q + One(n - 1 < r));
  }


  // ---- in which order ----

  /** The sets of service k among a, a + 1, ..., b - 1. */
  function Own(services: nat, k: nat, a: nat, b: nat): seq<nat>
    requires services > 0
    decreases b
  {
    if b <= a then [] else Own(services, k, a, b - 1) + if (b - 1) % services == k then [b - 1] else []
  }

  /** What service k receives: for each replica its sets in ascending order, beginning one set later than for the
      replica before, and then the ones in front of that beginning. */
  function InTurn(sets: nat, services: nat, k: nat, replicas: nat): seq<nat>
    requires services > 0
  {
    if replicas == 0 || sets == 0 then []
    else
      var start := (replicas - 1) % sets;
      InTurn(sets, services, k, replicas - 1) + Own(services, k, start, sets) + Own(services, k, 0, start)
  }

  lemma ChosenIs(sets: nat, j: nat, i: nat)
    requires i < sets
    ensures var start := j % sets;
            Chosen(sets, j, i) == if start + i < sets then start + i else start + i - sets
  {
    var q, start := j / sets, j % sets;
    DivMod(j, sets);
    if start + i < sets {
      DivUnique(j + i, sets, q, start + i);
    } else {
      OneMoreTime(q, sets);
      DivUnique(j + i, sets, q + 1, start + i - sets);
    }
  }

  lemma {:induction false} RoundIs(sets: nat, services: nat, k: nat, j: nat, i: nat)
    requires services > 0 && sets > 0 && i <= sets
    ensures var start := j % sets;
            Round(sets, services, k, j, i) ==
              if start + i <= sets then Own(services, k, start, start + i)
              else Own(services, k, start, sets) + Own(services, k, 0, start + i - sets)
  {
    hide Chosen;
    var start := j % sets;
    if i > 0 {
      RoundIs(sets, services, k, j, i - 1);
      ChosenIs(sets, j, i - 1);
      if start + (i - 1) == sets {
        assert Own(services, k, start, sets) + [] == Own(services, k, start, sets);
      }
    }
  }

  lemma {:induction false} RoundsInTurn(sets: nat, services: nat, k: nat, j: nat)
    requires services > 0
    ensures Rounds(sets, services, k, j) == InTurn(sets, services, k, j)
  {
    if j > 0 {
      RoundsInTurn(sets, services, k, j - 1);
      if sets > 0 {
        RoundIs(sets, services, k, j - 1, sets);
        hide Round;
        var start := (j - 1) % sets;
        var before, own, front := InTurn(sets, services, k, j - 1), Own(services, k, start, sets), Own(services, k, 0, start);
        assert start == 0 ==> front == [];
        assert own + [] == own && before + (own + front) == before + own + front;
      } else {
        EmptyRounds(services, k, j);
      }
    }
  }

  lemma {:induction false} EmptyRounds(services: nat, k: nat, j: nat)
    requires services > 0
    ensures Rounds(0, services, k, j) == []
  {
    if j > 0 {
      EmptyRounds(services, k, j - 1);
    }
  }

  /** The number of slots is the average rounded up. */
  lemma CapacityIs(sets: nat, replicas: nat, services: nat)
    requires services > 0
    ensures var c := Capacity(sets, replicas, services); sets * replicas <= c * services < sets * replicas + services
  {
    var total := sets * replicas;
    DivMod(total, services);
    OneMoreTime(total / services, services);
  }

  // ---- the loops ----

  /** Which service a set goes to, for every replica. */
  function Home(l: nat, services: nat): (k: nat)
    requires services > 0
    ensures k < services
  {
    l % services
  }

  /** What service k has received before step i of round j. */
  function Assigned(sets: nat, services: nat, k: nat, j: nat, i: nat): seq<nat>
    requires services > 0 && (i > 0 ==> sets > 0)
  {
    Rounds(sets, services, k, j) + Round(sets, services, k, j, i)
  }

  ghost function Row(held: array2<nat>, k: nat, n: nat): seq<nat>
    requires k < held.Length0 && n <= held.Length1
    reads held
  {
    seq(n, m requires 0 <= m < n reads held => held[k, m])
  }

  ghost predicate Received(held: array2<nat>, lengths: array<nat>, sets: nat, j: nat, i: nat)
    requires i > 0 ==> sets > 0
    reads held, lengths
  {
    && lengths.Length == held.Length0 > 0
    && forall k :: 0 <= k < lengths.Length ==>
                     lengths[k] <= held.Length1 && Row(held, k, lengths[k]) == Assigned(sets, lengths.Length, k, j, i)
  }

  lemma {:induction false} RoundsGrow(sets: nat, services: nat, k: nat, j: nat, replicas: nat)
    requires services > 0 && j <= replicas
    ensures |Rounds(sets, services, k, j)| <= |Rounds(sets, services, k, replicas)|
    decreases replicas - j
  {
    if j < replicas {
      RoundsGrow(sets, services, k, j + 1, replicas);
    }
  }

  /** A service that is full when another set comes shows that the placement is not balanced. */
  lemma FullMeansUnbalanced(sets: nat, replicas: nat, services: nat, k: nat, j: nat, i: nat)
    requires services > 0 && j < replicas && i < sets && k == Home(Chosen(sets, j, i), services)
    requires |Assigned(sets, services, k, j, i)| == Capacity(sets, replicas, services)
    ensures !Balanced(sets, replicas, services)
  {
    hide Share, Capacity, Balanced, Rounds, Chosen;
    PartOfRound(sets, services, k, j, i + 1);
    assert |Assigned(sets, services, k, j, i + 1)| == |Assigned(sets, services, k, j, i)| + 1;
    OneRound(sets, services, k, j);
    RoundsGrow(sets, services, k, j + 1, replicas);
    RoundsLength(sets, services, k, replicas);
    FirstIsLargest(sets, services, k);
    MonotoneBy(replicas, Share(sets, services, k), Share(sets, services, 0));
    ShareFits(sets, replicas, services);
  }

  lemma OneRound(sets: nat, services: nat, k: nat, j: nat)
    requires services > 0
    ensures Rounds(sets, services, k, j + 1) == Assigned(sets, services, k, j, sets)
  {
  }

  lemma FirstIsLargest(sets: nat, services: nat, k: nat)
    requires services > 0
    ensures Share(sets, services, k) <= Share(sets, services, 0)
  {
  }

  lemma MonotoneBy(n: nat, a: nat, b: nat)
    requires a <= b
    ensures n * a <= n * b
  {
    Distribute(n, a, b - a);
  }

  /** The ids of the services in a list, behind its head. */
  ghost function Ids(r: seq<Element<nat>>): (ids: seq<nat>)
    requires |r| > 0
    reads r
    ensures |ids| == |r| - 1 && forall i :: 0 <= i < |ids| ==> ids[i] == r[i + 1].value
  {
    seq(|r| - 1, i requires 0 <= i < |r| - 1 reads r => r[i + 1].value)
  }

  /** cmmGetOSbyIndex: walks the list to the k-th service; None where the source asserts. */
  method ServiceByIndex(head: Element<nat>, k: nat, ghost r: seq<Element<nat>>) returns (os: Option<Element<nat>>)
    requires Ring(r) && r[0] == head
    ensures os == if k + 1 < |r| then Some(r[k + 1]) else None
  {
    var i := 0;
    var entry := head.next;
    assert LinkedAt(r, 0);
    while entry != head
      invariant 0 <= i < |r| && i <= k && entry == Succ(r, i)
      decreases |r| - i
    {
      EndOfRing(r, i);
      if i == k {
        return Some(entry);
      }
      i := i + 1;
      assert LinkedAt(r, i);
      entry := entry.next;
    }
    EndOfRing(r, i);
    os := None;
  }

  lemma EndOfRing(r: seq<Element<nat>>, i: nat)
    requires Ring(r) && i < |r|
    ensures Succ(r, i) == r[0] <==> i + 1 == |r|
  {
  }

  /** The index from sets to services, as far as it is filled. */
  ghost predicate Tabled(table: array2<nat>, ids: seq<nat>, j: nat, i: nat)
    requires |ids| > 0
    reads table
  {
    forall l, r :: 0 <= l < table.Length0 && 0 <= r < table.Length1 ==>
                     (r < j || (r == j && Position(table.Length0, j, l) < i)) ==> table[l, r] == ids[Home(l, |ids|)]
  }

  lemma TabledNext(table: array2<nat>, ids: seq<nat>, j: nat)
    requires |ids| > 0 && Tabled(table, ids, j, table.Length0)
    ensures Tabled(table, ids, j + 1, 0)
  {
    forall l: nat, r: nat | l < table.Length0 && r < table.Length1 && r == j ensures table[l, r] == ids[Home(l, |ids|)] {
      PositionWithin(table.Length0, j, l);
    }
  }

  method PutTable(table: array2<nat>, ghost ids: seq<nat>, l: nat, id: nat, j: nat, i: nat)
    requires |ids| > 0 && j < table.Length1 && i < table.Length0
    requires Tabled(table, ids, j, i) && l == Chosen(table.Length0, j, i) && id == ids[Home(l, |ids|)]
    modifies table
    ensures Tabled(table, ids, j, i + 1)
  {
    ChosenAt(table.Length0, j, i);
    hide Position, Chosen, Home;
    table[l, j] := id;
  }

  /** cmmFillBSets up to its assertion: it runs to the end exactly if the placement is balanced; then both
      indexes are complete and say the same. */
  method FillBSets(services: Element<nat>, n: nat, sets: nat, replicas: nat, ghost r: seq<Element<nat>>)
    returns (ok: bool, lengths: array<nat>, held: array2<nat>, table: array2<nat>)
    requires Ring(r) && r[0] == services && n == |r| - 1 > 0 && sets * replicas < WRAP
    ensures ok <==> Balanced(sets, replicas, n)
    ensures lengths.Length == held.Length0 == n && held.Length1 == Capacity(sets, replicas, n)
    ensures table.Length0 == sets && table.Length1 == replicas
    ensures ok ==> Received(held, lengths, sets, replicas, 0)
    ensures ok ==> forall l, j :: 0 <= l < sets && 0 <= j < replicas ==> table[l, j] == Ids(r)[l % n]
    ensures ok ==> forall k :: 0 <= k < n ==>
                     lengths[k] <= held.Length1 && Row(held, k, lengths[k]) == InTurn(sets, n, k, replicas)
  {
    hide Received, Tabled, Balanced, Capacity, Chosen, Home, Ring, InTurn;
    var capacity := Capacity(sets, replicas, n);
    ghost var ids := Ids(r);
    lengths := new nat[n](_ => 0);
    held := new nat[n, capacity];
    table := new nat[sets, replicas];
    NothingReceived(held, lengths, sets);
    NothingTabled(table, ids);
    for j := 0 to replicas
      invariant Received(held, lengths, sets, j, 0) && Tabled(table, ids, j, 0)
    {
      for i := 0 to sets
        invariant Received(held, lengths, sets, j, i) && Tabled(table, ids, j, i)
      {
        var l := Chosen(sets, j, i);
        var k := Home(l, n);
        var os := ServiceByIndex(services, k, r);
        LengthIsAssigned(held, lengths, sets, j, i, k);
        if lengths[k] == capacity {
          FullMeansUnbalanced(sets, replicas, n, k, j, i);
          return false, lengths, held, table;
        }
        PutHeld(held, lengths, k, l, sets, j, i);
        PutTable(table, ids, l, os.value.value, j, i);
      }
      NextRound(held, lengths, sets, j);
      TabledNext(table, ids, j);
    }
    ok := true;
    AllPlaced(held, lengths, sets, replicas);
    AllTabled(table, ids);
    AllInTurn(held, lengths, sets, replicas);
  }

  lemma AllInTurn(held: array2<nat>, lengths: array<nat>, sets: nat, replicas: nat)
    requires Received(held, lengths, sets, replicas, 0)
    ensures forall k :: 0 <= k < lengths.Length ==>
              lengths[k] <= held.Length1 && Row(held, k, lengths[k]) == InTurn(sets, lengths.Length, k, replicas)
  {
    forall k | 0 <= k < lengths.Length
      ensures lengths[k] <= held.Length1 && Row(held, k, lengths[k]) == InTurn(sets, lengths.Length, k, replicas)
    {
      RoundsInTurn(sets, lengths.Length, k, replicas);
      hide Rounds, InTurn;
      assert Rounds(sets, lengths.Length, k, replicas) + [] == Rounds(sets, lengths.Length, k, replicas);
    }
  }

  lemma NothingReceived(held: array2<nat>, lengths: array<nat>, sets: nat)
    requires lengths.Length == held.Length0 > 0 && forall k :: 0 <= k < lengths.Length ==> lengths[k] == 0
    ensures Received(held, lengths, sets, 0, 0)
  {
  }

  lemma NothingTabled(table: array2<nat>, ids: seq<nat>)
    requires |ids| > 0
    ensures Tabled(table, ids, 0, 0)
  {
  }

  lemma AllTabled(table: array2<nat>, ids: seq<nat>)
    requires |ids| > 0 && Tabled(table, ids, table.Length1, 0)
    ensures forall l, j :: 0 <= l < table.Length0 && 0 <= j < table.Length1 ==> table[l, j] == ids[l % |ids|]
  {
  }

  lemma LengthIsAssigned(held: array2<nat>, lengths: array<nat>, sets: nat, j: nat, i: nat, k: nat)
    requires (i > 0 ==> sets > 0) && Received(held, lengths, sets, j, i) && k < lengths.Length
    ensures lengths[k] == |Assigned(sets, lengths.Length, k, j, i)| <= held.Length1
  {
    assert |Row(held, k, lengths[k])| == lengths[k];
  }

  lemma AssignedNext(sets: nat, services: nat, k: nat, j: nat, i: nat)
    requires services > 0 && i < sets
    ensures var before, l := Assigned(sets, services, k, j, i), Chosen(sets, j, i);
            Assigned(sets, services, k, j, i + 1) == if Home(l, services) == k then before + [l] else before
  {
  }

  method PutHeld(held: array2<nat>, lengths: array<nat>, k: nat, l: nat, sets: nat, j: nat, i: nat)
    requires i < sets && Received(held, lengths, sets, j, i) && l == Chosen(sets, j, i)
    requires k < lengths.Length && k == Home(l, lengths.Length) && lengths[k] < held.Length1
    modifies held, lengths
    ensures Received(held, lengths, sets, j, i + 1)
  {
    hide Assigned, Chosen, Home;
    ghost var n, before := lengths[k], Row(held, k, lengths[k]);
    held[k, lengths[k]] := l;
    lengths[k] := lengths[k] + 1;
    assert Row(held, k, n + 1) == before + [l];
    forall o | 0 <= o < lengths.Length
      ensures lengths[o] <= held.Length1 && Row(held, o, lengths[o]) == Assigned(sets, lengths.Length, o, j, i + 1)
    {
      AssignedNext(sets, lengths.Length, o, j, i);
      if o != k {
        assert Row(held, o, lengths[o]) == old(Row(held, o, lengths[o]));
      }
    }
  }

  lemma NextRound(held: array2<nat>, lengths: array<nat>, sets: nat, j: nat)
    requires Received(held, lengths, sets, j, sets)
    ensures Received(held, lengths, sets, j + 1, 0)
  {
  }

  lemma AllPlaced(held: array2<nat>, lengths: array<nat>, sets: nat, replicas: nat)
    requires Received(held, lengths, sets, replicas, 0) && held.Length1 == Capacity(sets, replicas, lengths.Length)
    ensures Balanced(sets, replicas, lengths.Length)
    ensures Sum(lengths[..]) == sets * replicas
    ensures forall k :: 0 <= k < lengths.Length ==> lengths[k] == replicas * Share(sets, lengths.Length, k)
    ensures forall k, l :: 0 <= k < lengths.Length && 0 <= l < sets ==>
                             multiset(Row(held, k, lengths[k]))[l] == if l % lengths.Length == k then replicas else 0
  {
    var n := lengths.Length;
    forall k | 0 <= k < n ensures lengths[k] == replicas * Share(sets, n, k) {
      assert |Row(held, k, lengths[k])| == |Assigned(sets, n, k, replicas, 0)|;
      RoundsLength(sets, n, k, replicas);
    }
    ShareFits(sets, replicas, n);
    AllShares(lengths[..], sets, replicas, n);
    forall k, l | 0 <= k < n && 0 <= l < sets
      ensures multiset(Row(held, k, lengths[k]))[l] == if l % n == k then replicas else 0
    {
      assert Row(held, k, lengths[k]) == Rounds(sets, n, k, replicas);
      RoundsHave(sets, n, k, replicas, l);
    }
  }
}
