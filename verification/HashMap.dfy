/** The chained hash map over intrusive lists (corecode/util/MapHashLinked.c). */
module HashMap {
  import opened Arithmetic
  import opened Bytes
  import opened LinkedList

  /** hash & (slots - 1), bit by bit. */
  function Mask(hash: nat, slots: nat): (i: nat)
    requires PowerOfTwo(slots)
    ensures i < slots
    decreases slots
  {
    if slots == 1 then 0 else hash % 2 + 2 * Mask(hash / 2, slots / 2)
  }

  predicate PowerOfTwo(n: nat) {
    n == 1 || (n > 1 && n % 2 == 0 && PowerOfTwo(n / 2))
  }

  /** For a power of two the mask is the remainder, so the slots are used evenly. */
  lemma {:induction false} MaskIsRemainder(hash: nat, slots: nat)
    requires PowerOfTwo(slots)
    ensures Mask(hash, slots) == hash % slots
    decreases slots
  {
    if slots > 1 {
      MaskIsRemainder(hash / 2, slots / 2);
      RemainderOfHalves(hash, slots / 2);
    }
  }

  lemma RemainderOfHalves(hash: nat, half: nat)
    requires half > 0
    ensures hash % (2 * half) == hash % 2 + 2 * (hash / 2 % half)
  {
    var q, r := hash / 2 / half, hash / 2 % half;
    DivMod(hash / 2, half);
    Doubled(hash, q, half, r);
    DivUnique(hash, 2 * half, q, hash % 2 + 2 * r);
  }

  lemma Doubled(hash: nat, q: nat, half: nat, r: nat)
    requires hash / 2 == q * half + r
    ensures hash == q * (2 * half) + (hash % 2 + 2 * r)
  {
    assert q * (2 * half) == 2 * (q * half);
  }

  // ---- what the lists hold, without the links ----

  /** How keys are hashed, compared and found in values.  code is what keys that compare equal share. */
  datatype Keys<!K(!new), !V, !C> = Keys(hash: K -> nat, same: (K, K) -> bool, keyOf: V -> K, code: K -> C)
  {
    ghost predicate Respected() {
      forall x, y :: (same(x, y) <==> code(x) == code(y)) && (code(x) == code(y) ==> hash(x) == hash(y))
    }

    lemma SameKeys(x: K, y: K)
      requires Respected() && same(x, y)
      ensures code(x) == code(y) && hash(x) == hash(y)
    {
    }

    ghost function Code(v: V): C {
      code(keyOf(v))
    }
  }

  /** Every listed value is the map's entry for its key, in the slot of its key, and only once. */
  ghost predicate Stored<K(!new), V, C>(keys: Keys<K, V, C>, lists: seq<seq<V>>, contents: map<C, V>)
  {
    && PowerOfTwo(|lists|)
    && (forall i, k :: 0 <= i < |lists| && 0 <= k < |lists[i]| ==> Entry(keys, |lists|, i, lists[i][k], contents))
    && (forall i :: 0 <= i < |lists| ==> NoRepeats(keys, lists[i]))
    && (forall c <- contents :: exists i, k :: 0 <= i < |lists| && 0 <= k < |lists[i]| && keys.Code(lists[i][k]) == c)
  }

  ghost predicate Entry<K(!new), V, C>(keys: Keys<K, V, C>, slots: nat, i: nat, v: V, contents: map<C, V>)
    requires PowerOfTwo(slots)
  {
    keys.Code(v) in contents && contents[keys.Code(v)] == v && Mask(keys.hash(keys.keyOf(v)), slots) == i
  }

  ghost predicate NoRepeats<K(!new), V, C>(keys: Keys<K, V, C>, list: seq<V>) {
    forall k, m :: 0 <= k < m < |list| ==> keys.Code(list[k]) != keys.Code(list[m])
  }

  /** A key of the map is found in its own slot and nowhere else. */
  lemma Located<K(!new), V, C>(keys: Keys<K, V, C>, lists: seq<seq<V>>, contents: map<C, V>, key: K)
    requires keys.Respected() && Stored(keys, lists, contents)
    ensures var i := Mask(keys.hash(key), |lists|);
            keys.code(key) in contents <==> exists k :: 0 <= k < |lists[i]| && keys.Code(lists[i][k]) == keys.code(key)
  {
    if keys.code(key) in contents {
      var j, m :| 0 <= j < |lists| && 0 <= m < |lists[j]| && keys.Code(lists[j][m]) == keys.code(key);
      assert Entry(keys, |lists|, j, lists[j][m], contents);
    }
  }

  lemma ListedIsEntry<K(!new), V, C>(keys: Keys<K, V, C>, lists: seq<seq<V>>, contents: map<C, V>, i: nat, k: nat)
    requires Stored(keys, lists, contents) && i < |lists| && k < |lists[i]|
    ensures keys.Code(lists[i][k]) in contents && contents[keys.Code(lists[i][k])] == lists[i][k]
  {
    assert Entry(keys, |lists|, i, lists[i][k], contents);
  }

  lemma StoredAfterReplace<K(!new), V, C>(keys: Keys<K, V, C>, lists: seq<seq<V>>, contents: map<C, V>, i: nat, k: nat, v: V)
    requires keys.Respected() && Stored(keys, lists, contents) && i < |lists| && k < |lists[i]|
    requires keys.Code(v) == keys.Code(lists[i][k])
    ensures Stored(keys, lists[i := lists[i][k := v]], contents[keys.Code(v) := v])
    ensures |contents[keys.Code(v) := v]| == |contents|
  {
    var lists', contents' := lists[i := lists[i][k := v]], contents[keys.Code(v) := v];
    assert Entry(keys, |lists|, i, lists[i][k], contents);
    assert contents'.Keys == contents.Keys;
    forall j, m | 0 <= j < |lists'| && 0 <= m < |lists'[j]| ensures Entry(keys, |lists'|, j, lists'[j][m], contents') {
      assert Entry(keys, |lists|, j, lists[j][m], contents);
    }
    assert NoRepeats(keys, lists[i]);
    NoRepeatsAfterReplace(keys, lists[i], k, v);
    forall c <- contents' ensures exists j, m :: 0 <= j < |lists'| && 0 <= m < |lists'[j]| && keys.Code(lists'[j][m]) == c {
      ReplacedStillThere(keys, lists, contents, i, k, v, c);
    }
    hide Entry, NoRepeats, Keys.Code, Keys.Respected;
  }

  lemma NoRepeatsAfterReplace<K(!new), V, C>(keys: Keys<K, V, C>, list: seq<V>, k: nat, v: V)
    requires NoRepeats(keys, list) && k < |list| && keys.Code(v) == keys.Code(list[k])
    ensures NoRepeats(keys, list[k := v])
  {
  }

  lemma ReplacedStillThere<K(!new), V, C>(keys: Keys<K, V, C>, lists: seq<seq<V>>, contents: map<C, V>, i: nat, k: nat, v: V, c: C)
    requires Stored(keys, lists, contents) && i < |lists| && k < |lists[i]| && c in contents && keys.Code(v) == keys.Code(lists[i][k])
    ensures var lists' := lists[i := lists[i][k := v]];
            exists j, m :: 0 <= j < |lists'| && 0 <= m < |lists'[j]| && keys.Code(lists'[j][m]) == c
  {
    var lists' := lists[i := lists[i][k := v]];
    var j, m := StandsSomewhere(keys, lists, contents, c);
    hide Stored, Keys.Code;
    assert keys.Code(lists'[j][m]) == c;
  }

  lemma StandsSomewhere<K(!new), V, C>(keys: Keys<K, V, C>, lists: seq<seq<V>>, contents: map<C, V>, c: C) returns (j: nat, m: nat)
    requires Stored(keys, lists, contents) && c in contents
    ensures j < |lists| && m < |lists[j]| && keys.Code(lists[j][m]) == c
  {
    j, m :| 0 <= j < |lists| && 0 <= m < |lists[j]| && keys.Code(lists[j][m]) == c;
  }

  lemma StoredAfterAppend<K(!new), V, C>(keys: Keys<K, V, C>, lists: seq<seq<V>>, contents: map<C, V>, i: nat, v: V)
    requires keys.Respected() && Stored(keys, lists, contents)
    requires i == Mask(keys.hash(keys.keyOf(v)), |lists|) && keys.Code(v) !in contents
    ensures Stored(keys, lists[i := lists[i] + [v]], contents[keys.Code(v) := v])
  {
    var lists', contents' := lists[i := lists[i] + [v]], contents[keys.Code(v) := v];
    forall j, m | 0 <= j < |lists'| && 0 <= m < |lists'[j]| ensures Entry(keys, |lists'|, j, lists'[j][m], contents') {
      if j != i || m < |lists[i]| {
        assert Entry(keys, |lists|, j, lists[j][m], contents);
      }
    }
    assert NoRepeats(keys, lists'[i]) by {
      forall m | 0 <= m < |lists[i]| ensures keys.Code(lists[i][m]) != keys.Code(v) {
        assert Entry(keys, |lists|, i, lists[i][m], contents);
      }
    }
    forall c <- contents' ensures exists j, m :: 0 <= j < |lists'| && 0 <= m < |lists'[j]| && keys.Code(lists'[j][m]) == c {
      AppendedIsThere(keys, lists, contents, i, v, c);
    }
    hide Entry, NoRepeats, Keys.Code, Keys.Respected;
  }

  lemma AppendedIsThere<K(!new), V, C>(keys: Keys<K, V, C>, lists: seq<seq<V>>, contents: map<C, V>, i: nat, v: V, c: C)
    requires Stored(keys, lists, contents) && i < |lists| && (c in contents || c == keys.Code(v))
    ensures var lists' := lists[i := lists[i] + [v]];
            exists j, m :: 0 <= j < |lists'| && 0 <= m < |lists'[j]| && keys.Code(lists'[j][m]) == c
  {
    var lists' := lists[i := lists[i] + [v]];
    if c == keys.Code(v) {
      assert lists'[i][|lists[i]|] == v;
    } else {
      var j, m := StandsSomewhere(keys, lists, contents, c);
      hide Stored, Keys.Code;
      assert lists'[j][m] == lists[j][m];
    }
  }

  ghost function Without<T>(s: seq<T>, k: nat): (r: seq<T>)
    requires k < |s|
    ensures |r| == |s| - 1 && forall i :: 0 <= i < |r| ==> r[i] == if i < k then s[i] else s[i + 1]
  {
    s[..k] + s[k + 1..]
  }

  lemma StoredAfterRemove<K(!new), V, C>(keys: Keys<K, V, C>, lists: seq<seq<V>>, contents: map<C, V>, i: nat, k: nat)
    requires keys.Respected() && Stored(keys, lists, contents) && i < |lists| && k < |lists[i]|
    ensures Stored(keys, lists[i := Without(lists[i], k)], contents - {keys.Code(lists[i][k])})
  {
    var gone := keys.Code(lists[i][k]);
    var lists', contents' := lists[i := Without(lists[i], k)], contents - {gone};
    forall j, m | 0 <= j < |lists'| && 0 <= m < |lists'[j]| ensures Entry(keys, |lists'|, j, lists'[j][m], contents') {
      EntryAfterRemove(keys, lists, contents, i, k, j, m);
    }
    assert NoRepeats(keys, lists[i]);
    NoRepeatsAfterRemove(keys, lists[i], k);
    forall c <- contents' ensures exists j, m :: 0 <= j < |lists'| && 0 <= m < |lists'[j]| && keys.Code(lists'[j][m]) == c {
      var j, m :| 0 <= j < |lists| && 0 <= m < |lists[j]| && keys.Code(lists[j][m]) == c;
      assert lists'[j][if j == i && m > k then m - 1 else m] == lists[j][m];
    }
    hide Entry, NoRepeats, Without, Keys.Code, Keys.Respected;
  }

  lemma NoRepeatsAfterRemove<K(!new), V, C>(keys: Keys<K, V, C>, list: seq<V>, k: nat)
    requires NoRepeats(keys, list) && k < |list|
    ensures NoRepeats(keys, Without(list, k))
  {
  }

  lemma EntryAfterRemove<K(!new), V, C>(keys: Keys<K, V, C>, lists: seq<seq<V>>, contents: map<C, V>, i: nat, k: nat, j: nat, m: nat)
    requires Stored(keys, lists, contents) && i < |lists| && k < |lists[i]| && j < |lists|
    requires m < if j == i then |lists[i]| - 1 else |lists[j]|
    ensures var v := if j == i then Without(lists[i], k)[m] else lists[j][m];
            Entry(keys, |lists|, j, v, contents - {keys.Code(lists[i][k])})
  {
    var m' := if j == i && m >= k then m + 1 else m;
    assert Entry(keys, |lists|, j, lists[j][m'], contents) && Entry(keys, |lists|, i, lists[i][k], contents);
    if j == i {
      assert NoRepeats(keys, lists[i]);
    }
  }

  /** All listed values, slot by slot. */
  ghost function Flatten<V>(lists: seq<seq<V>>): seq<V> {
    if lists == [] then [] else Flatten(lists[..|lists| - 1]) + lists[|lists| - 1]
  }

  // ---- the map ----

  class MapHashLinked<K(!new), V(0), C(==)> {
    ghost const keys: Keys<K, V, C>
    const hashMethod: K -> nat
    const compareMethod: (K, K) -> bool
    const keyOf: V -> K
    const slots: array<Element<V>>
    var size: nat

    /** Each slot's list, head first, the elements of all lists, the values they carry and the map they make up. */
    ghost var rings: seq<seq<Element<V>>>
    ghost var nodes: set<Element<V>>
    ghost var lists: seq<seq<V>>
    ghost var contents: map<C, V>

    ghost predicate SlotLinked(i: nat)
      requires i < |rings| && |rings| == |lists| == slots.Length
      reads `rings, `lists, `nodes, slots, nodes
    {
      && (forall n <- rings[i] :: n in nodes)
      && Ring(rings[i]) && rings[i][0] == slots[i] && |rings[i]| == |lists[i]| + 1
      && forall k :: 0 <= k < |lists[i]| ==> rings[i][k + 1].value == lists[i][k]
    }

    /** The lists are well-formed, share nothing and carry the values. */
    ghost predicate Linked()
      reads `rings, `lists, `nodes, slots, nodes
    {
      && |rings| == |lists| == slots.Length
      && (forall i :: 0 <= i < |rings| ==> SlotLinked(i))
      && (forall i, j :: 0 <= i < j < |rings| ==> Apart(rings[i], rings[j]))
    }

    ghost predicate Valid()
      reads this, slots, nodes
    {
      && keys.Respected() && keys.hash == hashMethod && keys.same == compareMethod && keys.keyOf == keyOf
      && Linked() && Stored(keys, lists, contents) && size == |contents|
    }

    function Index(key: K): nat
      requires PowerOfTwo(slots.Length)
    {
      Mask(hashMethod(key), slots.Length)
    }

    /** initMapHashLinked: every slot an empty list. */
    constructor (hashMethod: K -> nat, compareMethod: (K, K) -> bool, keyOf: V -> K, ghost code: K -> C, slotSize: nat)
      requires PowerOfTwo(slotSize) && Keys(hashMethod, compareMethod, keyOf, code).Respected()
      ensures Valid() && contents == map[] && fresh(slots) && fresh(nodes) && slots.Length == slotSize
      ensures keys == Keys(hashMethod, compareMethod, keyOf, code)
    {
      this.hashMethod, this.compareMethod, this.keyOf := hashMethod, compareMethod, keyOf;
      keys := Keys(hashMethod, compareMethod, keyOf, code);
      var unused: V := *;
      var heads := NewHeads(slotSize, unused);
      slots := new Element<V>[slotSize](i requires 0 <= i < slotSize => heads[i]);
      size := 0;
      rings, nodes := seq(slotSize, i requires 0 <= i < slotSize => [heads[i]]), set n | n in heads;
      lists, contents := seq(slotSize, _ => []), map[];
      new;
      LinkedAtFirst(heads);
      hide Linked;
      EmptyStored(keys, lists);
    }

    lemma LinkedAtFirst(heads: seq<Element<V>>)
      requires |heads| == |rings| == |lists| == slots.Length
      requires forall i :: 0 <= i < |heads| ==> rings[i] == [heads[i]] && lists[i] == [] && slots[i] == heads[i] && heads[i] in nodes
      requires forall k :: 0 <= k < |heads| ==> Ring([heads[k]])
      requires forall k, m :: 0 <= k < m < |heads| ==> heads[k] != heads[m]
      ensures Linked()
    {
      forall i | 0 <= i < |rings| ensures SlotLinked(i) {
        assert Ring([heads[i]]);
      }
      hide Ring;
    }

    /** The loop that makes every slot an empty list. */
    static method NewHeads(count: nat, unused: V) returns (heads: seq<Element<V>>)
      ensures |heads| == count
      ensures forall k :: 0 <= k < count ==> fresh(heads[k]) && Ring([heads[k]])
      ensures forall k, m :: 0 <= k < m < count ==> heads[k] != heads[m]
    {
      heads := [];
      while |heads| < count
        invariant |heads| <= count
        invariant forall k :: 0 <= k < |heads| ==> fresh(heads[k]) && Ring([heads[k]])
        invariant forall k, m :: 0 <= k < m < |heads| ==> heads[k] != heads[m]
      {
        var head := new Element(unused);
        ListHeadInit(head);
        heads := heads + [head];
      }
    }

    lemma Shape()
      requires Valid()
      ensures PowerOfTwo(slots.Length) && |rings| == |lists| == slots.Length
      ensures keys.hash == hashMethod && keys.same == compareMethod && keys.keyOf == keyOf && keys.Respected()
      ensures forall i :: 0 <= i < |rings| ==> slots[i] in nodes
    {
      forall i | 0 <= i < |rings| ensures slots[i] in nodes {
        assert SlotLinked(i) && rings[i][0] in nodes;
      }
    }

    /** What stands at position k of a slot's list, the head at position 0. */
    lemma ItemAt(i: nat, k: nat)
      requires Valid() && i < |rings| && k < |rings[i]|
      ensures |rings| == |lists| == slots.Length && |rings[i]| == |lists[i]| + 1 && rings[i][0] == slots[i]
      ensures rings[i][k].next == Succ(rings[i], k) && rings[i][k] in nodes
      ensures k > 0 ==> rings[i][k] != slots[i] && rings[i][k].value == lists[i][k - 1]
    {
      hide Stored, Keys.Respected;
      assert SlotLinked(i) && LinkedAt(rings[i], k);
    }

    /** Where the walk goes from position k. */
    lemma NextAt(i: nat, k: nat)
      requires Valid() && i < |rings| && k < |rings[i]|
      ensures |rings| == slots.Length
      ensures var n := Succ(rings[i], k); if n == slots[i] then k + 1 == |rings[i]| else k + 1 < |rings[i]| && n == rings[i][k + 1]
    {
      ItemAt(i, 0);
      if k + 1 < |rings[i]| {
        ItemAt(i, k + 1);
      }
    }

    lemma HeadStands(i: nat)
      requires Valid() && i < slots.Length
      ensures i < |rings| && 0 < |rings[i]|
    {
      hide Stored, Keys.Respected;
      assert SlotLinked(i);
    }

    /** The loop all operations share: walks the slot's list to the item with the key or back to the head. */
    method FindItem(slot: Element<V>, key: K, ghost i: nat) returns (got: bool, item: Element<V>, ghost k: nat)
      requires Valid() && i == Index(key) && slot == slots[i]
      ensures got <==> keys.code(key) in contents
      ensures got ==> 0 < k < |rings[i]| && k <= |lists[i]| && item == rings[i][k] && item in nodes
      ensures got ==> item.value == contents[keys.code(key)] == lists[i][k - 1] && keys.Code(item.value) == keys.code(key)
    {
      got, item, k := Walk(slot, key, i);
      if got {
        ItemAt(i, k);
        ListedIsEntry(keys, lists, contents, i, k - 1);
      } else {
        NotListed(key, i);
      }
    }

    method Walk(slot: Element<V>, key: K, ghost i: nat) returns (got: bool, item: Element<V>, ghost k: nat)
      requires Valid() && i < slots.Length && slot == slots[i]
      ensures i < |rings| && i < |lists| && |rings[i]| == |lists[i]| + 1
      ensures got ==> 0 < k < |rings[i]| && item == rings[i][k] && keys.Code(lists[i][k - 1]) == keys.code(key)
      ensures !got ==> forall m :: 0 <= m < |lists[i]| ==> keys.Code(lists[i][m]) != keys.code(key)
    {
      hide Valid, Keys.Code, Succ;
      HeadStands(i);
      ItemAt(i, 0);
      NextAt(i, 0);
      item, k := slot.next, 1;
      while item != slot
        invariant 1 <= k <= |rings[i]|
        invariant if item == slot then k == |rings[i]| else k < |rings[i]| && item == rings[i][k]
        invariant forall m :: 0 <= m < k - 1 ==> keys.Code(lists[i][m]) != keys.code(key)
        decreases |rings[i]| - k
      {
        ItemAt(i, k);
        NextAt(i, k);
        Compares(item.value, key);
        if compareMethod(keyOf(item.value), key) {
          return true, item, k;
        }
        item, k := item.next, k + 1;
      }
      got := false;
    }

    lemma NotListed(key: K, i: nat)
      requires Valid() && PowerOfTwo(slots.Length) && i == Index(key) && i < |lists|
      requires forall m :: 0 <= m < |lists[i]| ==> keys.Code(lists[i][m]) != keys.code(key)
      ensures keys.code(key) !in contents
    {
      Located(keys, lists, contents, key);
      hide Stored, Keys.Code;
    }

    lemma Compares(v: V, key: K)
      requires Valid()
      ensures compareMethod(keyOf(v), key) <==> keys.Code(v) == keys.code(key)
    {
      hide Linked, Stored;
    }

    method Get(key: K) returns (r: Option<V>)
      requires Valid()
      ensures r == if keys.code(key) in contents then Some(contents[keys.code(key)]) else None
    {
      var got, item, _ := FindItem(slots[Index(key)], key, Index(key));
      r := if got then Some(item.value) else None;
    }

    /** Stores the value and returns the one it replaces.  The value must carry the key. */
    method Put(key: K, value: V) returns (r: Option<V>)
      requires Valid() && compareMethod(keyOf(value), key)
      modifies this, nodes
      ensures Valid() && fresh(nodes - old(nodes))
      ensures r == if keys.code(key) in old(contents) then Some(old(contents)[keys.code(key)]) else None
      ensures contents == old(contents)[keys.code(key) := value]
      ensures PowerOfTwo(slots.Length) && Index(key) < |old(lists)|
      ensures keys.code(key) !in old(contents) ==> lists == old(lists)[Index(key) := old(lists)[Index(key)] + [value]]
    {
      keys.SameKeys(keyOf(value), key);
      Shape();
      hide Valid;
      ghost var i := Index(key);
      var slot := slots[Index(key)];
      var got, item, k := FindItem(slot, key, i);
      if got {
        r := Some(item.value);
        Replace(item, value, i, k);
      } else {
        r := None;
        Append(slot, value, i);
      }
    }

    method Replace(item: Element<V>, value: V, ghost i: nat, ghost k: nat)
      requires Valid() && i < |rings| && 0 < k < |rings[i]| && k <= |lists[i]| && item == rings[i][k]
      requires keys.Code(value) == keys.Code(lists[i][k - 1])
      modifies `contents, `lists, item`value
      ensures Valid() && contents == old(contents)[keys.Code(value) := value]
    {
      hide Stored, Linked, Keys.Respected, Keys.Code;
      Shape();
      StoredAfterReplace(keys, lists, contents, i, k - 1, value);
      SetValue(item, value, i, k);
      contents := contents[keys.Code(value) := value];
    }

    method SetValue(item: Element<V>, value: V, ghost i: nat, ghost k: nat)
      requires Linked() && i < |rings| && 0 < k < |rings[i]| && k <= |lists[i]| && item == rings[i][k]
      modifies `lists, item`value
      ensures Linked() && lists == old(lists)[i := old(lists)[i][k - 1 := value]]
    {
      item.value := value;
      lists := lists[i := lists[i][k - 1 := value]];
      forall j | 0 <= j < |rings| ensures SlotLinked(j) {
        assert old(SlotLinked(j)) && old(SlotLinked(i));
        KeepRing(rings[j]);
      }
    }

    /** Nothing that LinkedAt reads has changed. */
    twostate lemma KeepRing(r: seq<Element<V>>)
      requires old(Ring(r)) && unchanged(r`next, r`prev)
      ensures Ring(r)
    {
      forall i | 0 <= i < |r| ensures LinkedAt(r, i) {
        assert old(LinkedAt(r, i));
      }
    }

    method Append(slot: Element<V>, value: V, ghost i: nat)
      requires Valid() && i == Index(keyOf(value)) && slot == slots[i] && keys.Code(value) !in contents
      modifies this, nodes
      ensures Valid() && fresh(nodes - old(nodes))
      ensures i < |old(lists)| && lists == old(lists)[i := old(lists)[i] + [value]]
      ensures contents == old(contents)[keys.Code(value) := value]
    {
      StoredAfterAppend(keys, lists, contents, i, value);
      hide Stored, Linked, Keys.Respected;
      AppendNode(slot, value, i);
      size := size + 1;
      contents := contents[keys.Code(value) := value];
    }

    method AppendNode(slot: Element<V>, value: V, ghost i: nat)
      requires Linked() && i < |rings| && slot == slots[i]
      modifies `rings, `lists, `nodes, nodes
      ensures Linked() && fresh(nodes - old(nodes))
      ensures lists == old(lists)[i := old(lists)[i] + [value]]
    {
      assert SlotLinked(i);
      var item := new Element(value);
      ListAddTail(item, slot, rings[i]);
      nodes := nodes + {item};
      lists := lists[i := lists[i] + [value]];
      rings := rings[i := rings[i] + [item]];
      forall j | 0 <= j < |rings| ensures SlotLinked(j) {
        assert old(SlotLinked(j));
        if j != i {
          ApartFrom(old(rings), i, j);
          KeepRing(rings[j]);
        }
      }
      forall j, m | 0 <= j < m < |rings| ensures Apart(rings[j], rings[m]) {
        assert old(SlotLinked(j)) && old(SlotLinked(m));
        ApartFrom(old(rings), j, m);
      }
    }

    static lemma ApartFrom(all: seq<seq<Element<V>>>, i: nat, j: nat)
      requires i < |all| && j < |all| && i != j
      requires forall i, j :: 0 <= i < j < |all| ==> Apart(all[i], all[j])
      ensures Apart(all[i], all[j])
    {
      assert if i < j then Apart(all[i], all[j]) else Apart(all[j], all[i]);
    }

    /** Takes the item with the key out, if there is one, and returns its value. */
    method Remove(key: K) returns (r: Option<V>)
      requires Valid()
      modifies this, nodes
      ensures Valid() && nodes == old(nodes)
      ensures r == if keys.code(key) in old(contents) then Some(old(contents)[keys.code(key)]) else None
      ensures contents == old(contents) - {keys.code(key)}
    {
      ghost var i := Index(key);
      var slot := slots[Index(key)];
      var got, item, k := FindItem(slot, key, i);
      if got {
        r := Some(item.value);
        Unlink(item, i, k);
      } else {
        r := None;
        assert contents == contents - {keys.code(key)};
      }
    }

    method Unlink(item: Element<V>, ghost i: nat, ghost k: nat)
      requires Valid() && i < |rings| && 0 < k < |rings[i]| && k <= |lists[i]| && item == rings[i][k]
      modifies this, nodes
      ensures Valid() && nodes == old(nodes)
      ensures contents == old(contents) - {keys.Code(old(lists)[i][k - 1])}
    {
      StoredAfterRemove(keys, lists, contents, i, k - 1);
      assert Entry(keys, |lists|, i, lists[i][k - 1], contents);
      ghost var gone := keys.Code(lists[i][k - 1]);
      RemoveNode(item, i, k);
      size := size - 1;
      contents := contents - {gone};
    }

    method RemoveNode(item: Element<V>, ghost i: nat, ghost k: nat)
      requires Linked() && i < |rings| && 0 < k < |rings[i]| && k <= |lists[i]| && item == rings[i][k]
      modifies `rings, `lists, nodes
      ensures Linked() && lists == old(lists)[i := Without(old(lists)[i], k - 1)]
      ensures rings == old(rings)[i := Removed(old(rings)[i], k)]
    {
      assert SlotLinked(i);
      ListDel(item, rings[i], k);
      lists := lists[i := Without(lists[i], k - 1)];
      rings := rings[i := Removed(rings[i], k)];
      forall j | 0 <= j < |rings| ensures SlotLinked(j) {
        assert old(SlotLinked(j));
        if j != i {
          ApartFrom(old(rings), i, j);
          KeepRing(rings[j]);
        }
      }
      forall j, m | 0 <= j < m < |rings| ensures Apart(rings[j], rings[m]) {
        ApartFrom(old(rings), j, m);
      }
    }

    /** Empties every list, handing out the values. */
    method Clear() returns (values: seq<V>)
      requires Valid()
      modifies this, nodes
      ensures Valid() && contents == map[] && nodes == old(nodes)
      ensures values == Flatten(old(lists))
    {
      Shape();
      hide Stored, Linked, Keys.Respected;
      values := ClearSlots();
      size := 0;
      contents := map[];
      EmptyStored(keys, lists);
    }

    /** The outer loop, slot by slot. */
    method ClearSlots() returns (values: seq<V>)
      requires |rings| == |lists| == slots.Length && Linked()
      modifies `rings, `lists, nodes
      ensures Linked() && |lists| == slots.Length && values == Flatten(old(lists))
      ensures forall j :: 0 <= j < |lists| ==> lists[j] == []
    {
      hide Linked;
      ghost var before := lists;
      values := [];
      var i := 0;
      assert before[..0] == [];
      while i < slots.Length
        invariant 0 <= i <= slots.Length && |rings| == |lists| == slots.Length
        invariant Linked() && values == Flatten(before[..i])
        invariant forall j :: 0 <= j < |lists| ==> lists[j] == if j < i then [] else before[j]
      {
        var more := ClearSlot(i);
        values := values + more;
        assert before[..i + 1][..i] == before[..i];
        i := i + 1;
      }
      assert before[..i] == before;
    }

    /** The inner loop: each item is read, unlinked and freed before the next one. */
    method ClearSlot(i: nat) returns (values: seq<V>)
      requires i < |rings| && |rings| == |lists| == slots.Length && Linked()
      modifies `rings, `lists, nodes
      ensures Linked() && |rings| == |lists| == slots.Length
      ensures lists == old(lists)[i := []] && values == old(lists)[i]
    {
      hide Linked, Succ;
      HeadOf(i);
      var slot := slots[i];
      var item := slot.next;
      values := [];
      while item != slot
        invariant Linked() && |rings| == |lists| == slots.Length
        invariant |rings[i]| > 0 && item == Succ(rings[i], 0)
        invariant lists == old(lists)[i := lists[i]]
        invariant values + lists[i] == old(lists)[i]
        decreases |lists[i]|
      {
        HeadOf(i);
        var value, next := ClearItem(item, i);
        values, item := values + [value], next;
      }
      HeadOf(i);
    }

    /** The head of a slot points to itself exactly if nothing is listed there. */
    lemma HeadOf(i: nat)
      requires i < |rings| && Linked()
      ensures |rings[i]| == |lists[i]| + 1 && slots[i].next == Succ(rings[i], 0)
      ensures Succ(rings[i], 0) == slots[i] <==> lists[i] == []
      ensures lists[i] != [] ==> Succ(rings[i], 0) == rings[i][1]
    {
      assert SlotLinked(i) && LinkedAt(rings[i], 0);
    }

    method ClearItem(item: Element<V>, i: nat) returns (value: V, next: Element<V>)
      requires i < |rings| && |rings| == |lists| == slots.Length && Linked()
      requires lists[i] != [] && |rings[i]| > 1 && item == rings[i][1]
      modifies `rings, `lists, nodes
      ensures Linked() && |rings| == |lists| == slots.Length && |rings[i]| > 0 && next == Succ(rings[i], 0)
      ensures value == old(lists)[i][0] && lists == old(lists)[i := old(lists)[i][1..]]
    {
      assert SlotLinked(i) && LinkedAt(rings[i], 1);
      ghost var r := rings[i];
      next, value := item.next, item.value;
      assert Succ(Removed(r, 1), 0) == Succ(r, 1);
      hide Linked, SlotLinked;
      RemoveNode(item, i, 1);
      assert Without(old(lists)[i], 0) == old(lists)[i][1..];
    }
  }

  lemma EmptyStored<K(!new), V, C>(keys: Keys<K, V, C>, lists: seq<seq<V>>)
    requires PowerOfTwo(|lists|) && forall j :: 0 <= j < |lists| ==> lists[j] == []
    ensures Stored(keys, lists, map[])
  {
  }

  /** Read out slot by slot, every stored value comes exactly once. */
  lemma {:induction false} FlattenOnce<K(!new), V, C>(keys: Keys<K, V, C>, lists: seq<seq<V>>, contents: map<C, V>)
    requires keys.Respected() && Stored(keys, lists, contents)
    ensures var values := Flatten(lists);
            && |values| == |contents| && NoRepeats(keys, values)
            && (forall k :: 0 <= k < |values| ==> keys.Code(values[k]) in contents && contents[keys.Code(values[k])] == values[k])
            && (forall c <- contents :: contents[c] in values)
  {
    FlattenPrefix(keys, lists, contents, |lists|);
    assert lists[..|lists|] == lists;
    AllFlattened(keys, lists, contents);
    hide Stored, Keys.Respected, NoRepeats, Keys.Code, Flatten;
    CodesAreKeys(keys, Flatten(lists), contents);
    CodesCount(keys, Flatten(lists));
  }

  lemma CodesAreKeys<K(!new), V, C>(keys: Keys<K, V, C>, values: seq<V>, contents: map<C, V>)
    requires forall k :: 0 <= k < |values| ==> keys.Code(values[k]) in contents
    requires forall c <- contents :: contents[c] in values && keys.Code(contents[c]) == c
    ensures (set k | 0 <= k < |values| :: keys.Code(values[k])) == contents.Keys
  {
    hide Keys.Code;
    var codes := set k | 0 <= k < |values| :: keys.Code(values[k]);
    forall c <- contents ensures c in codes {
      var k :| 0 <= k < |values| && values[k] == contents[c];
      assert keys.Code(values[k]) == c;
    }
  }

  lemma AllFlattened<K(!new), V, C>(keys: Keys<K, V, C>, lists: seq<seq<V>>, contents: map<C, V>)
    requires Stored(keys, lists, contents)
    ensures forall c <- contents :: contents[c] in Flatten(lists) && keys.Code(contents[c]) == c
  {
    forall c <- contents ensures contents[c] in Flatten(lists) && keys.Code(contents[c]) == c {
      var i, k :| 0 <= i < |lists| && 0 <= k < |lists[i]| && keys.Code(lists[i][k]) == c;
      assert Entry(keys, |lists|, i, lists[i][k], contents);
      FlattenHas(lists, i, k);
    }
  }

  lemma {:induction false} CodesCount<K(!new), V, C>(keys: Keys<K, V, C>, values: seq<V>)
    requires NoRepeats(keys, values)
    ensures |set k | 0 <= k < |values| :: keys.Code(values[k])| == |values|
  {
    if values != [] {
      var n := |values| - 1;
      var front := values[..n];
      CodesCount(keys, front);
      var codes := set k | 0 <= k < n :: keys.Code(front[k]);
      assert (set k | 0 <= k < |values| :: keys.Code(values[k])) == codes + {keys.Code(values[n])};
    }
  }

  lemma {:induction false} FlattenHas<V>(lists: seq<seq<V>>, i: nat, k: nat)
    requires i < |lists| && k < |lists[i]|
    ensures lists[i][k] in Flatten(lists)
    decreases |lists|
  {
    if i < |lists| - 1 {
      FlattenHas(lists[..|lists| - 1], i, k);
    }
  }

  ghost predicate InSlots<K(!new), V, C>(keys: Keys<K, V, C>, slots: nat, n: nat, v: V, contents: map<C, V>)
    requires PowerOfTwo(slots)
  {
    exists i :: 0 <= i < n && Entry(keys, slots, i, v, contents)
  }

  /** The values of the first n slots: distinct keys, all entries of the map. */
  lemma {:induction false} FlattenPrefix<K(!new), V, C>(keys: Keys<K, V, C>, lists: seq<seq<V>>, contents: map<C, V>, n: nat)
    requires keys.Respected() && Stored(keys, lists, contents) && n <= |lists|
    ensures var values := Flatten(lists[..n]);
            && NoRepeats(keys, values)
            && forall k :: 0 <= k < |values| ==> InSlots(keys, |lists|, n, values[k], contents)
  {
    if n == 0 {
      assert lists[..0] == [];
    } else {
      FlattenPrefix(keys, lists, contents, n - 1);
      assert lists[..n][..n - 1] == lists[..n - 1];
      var front, last := Flatten(lists[..n - 1]), lists[n - 1];
      var values := Flatten(lists[..n]);
      assert values == front + last;
      forall k | 0 <= k < |values| ensures InSlots(keys, |lists|, n, values[k], contents) {
        if k >= |front| {
          assert values[k] == last[k - |front|] && Entry(keys, |lists|, n - 1, last[k - |front|], contents);
        } else {
          assert InSlots(keys, |lists|, n - 1, front[k], contents);
        }
      }
      forall k, m | 0 <= k < m < |values| ensures keys.Code(values[k]) != keys.Code(values[m]) {
        if m < |front| {
          assert keys.Code(front[k]) != keys.Code(front[m]);
        } else if k >= |front| {
          assert NoRepeats(keys, last) && keys.Code(last[k - |front|]) != keys.Code(last[m - |front|]);
        } else {
          assert InSlots(keys, |lists|, n - 1, front[k], contents);
          assert Entry(keys, |lists|, n - 1, last[m - |front|], contents);
        }
      }
    }
  }
}
