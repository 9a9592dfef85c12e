/** Comparison, lookup and duplication of trees (cJSON.c:97-126, 1772-1802, 2554-2631, 2803-2926). */
module JsonCompare {
  import opened Bytes

  datatype Double = NaN | NegativeInfinity | PositiveInfinity | Finite(value: real)

  /** The low byte of a node's type; everything cJSON does not know is Invalid. */
  datatype Kind = Invalid | False | True | Null | Number | String | Array | Object | Raw

  /** A node with the fields comparison looks at: text and name may be missing (NULL). */
  datatype Item = Item(kind: Kind, text: Option<CString>, number: Double, name: Option<CString>,
                       children: seq<Item>, isReference: bool, nameIsConst: bool)

  // ---- keys ----

  function ToLower(c: nonzero): nonzero {
    if 65 <= c <= 90 then c + 32 else c
  }

  /** What two names must share to be the same key. */
  function Fold(name: CString, caseSensitive: bool): (r: CString)
    ensures |r| == |name|
  {
    if caseSensitive then name else seq(|name|, i requires 0 <= i < |name| => ToLower(name[i]))
  }

  /** Two bytes are equal, or the two cases of one ASCII letter. */
  predicate SameLetter(x: nonzero, y: nonzero) {
    x == y || ('A' as int <= x <= 'Z' as int && y == x + 32) || ('a' as int <= x <= 'z' as int && y == x - 32)
  }

  /** What it takes for two names to match. */
  predicate SameName(x: CString, y: CString, caseSensitive: bool) {
    |x| == |y| && forall i :: 0 <= i < |x| ==> if caseSensitive then x[i] == y[i] else SameLetter(x[i], y[i])
  }

  /** Names fold alike exactly if they match. */
  lemma FoldsAlike(x: CString, y: CString, caseSensitive: bool)
    ensures Fold(x, caseSensitive) == Fold(y, caseSensitive) <==> SameName(x, y, caseSensitive)
  {
    if Fold(x, caseSensitive) == Fold(y, caseSensitive) {
      forall i | 0 <= i < |x| ensures if caseSensitive then x[i] == y[i] else SameLetter(x[i], y[i]) {
        assert Fold(x, caseSensitive)[i] == Fold(y, caseSensitive)[i];
      }
    }
    if SameName(x, y, caseSensitive) {
      forall i | 0 <= i < |x| ensures Fold(x, caseSensitive)[i] == Fold(y, caseSensitive)[i] {
        assert if caseSensitive then x[i] == y[i] else SameLetter(x[i], y[i]);
      }
    }
  }

  /** case_insensitive_strcmp finds no difference exactly when the folded names are equal. */
  method SameIgnoringCase(x: CString, y: CString) returns (same: bool)
    ensures same <==> SameName(x, y, false)
  {
    var i := 0;
    while i < |x| && i < |y| && ToLower(x[i]) == ToLower(y[i])
      invariant 0 <= i <= |x| && i <= |y|
      invariant forall k :: 0 <= k < i ==> SameLetter(x[k], y[k])
    {
      i := i + 1;
    }
    same := i == |x| && i == |y|;
  }

  /** First child with the name.  The case-sensitive search gives up at a child without a name. */
  function Lookup(children: seq<Item>, i: nat, name: CString, caseSensitive: bool): (r: Option<nat>)
    requires i <= |children|
    ensures r.Some? ==> i <= r.value < |children| && children[r.value].name.Some?
                        && Fold(children[r.value].name.value, caseSensitive) == Fold(name, caseSensitive)
    decreases |children| - i
  {
    if i == |children| then None
    else if children[i].name.None? then
      if caseSensitive then None else Lookup(children, i + 1, name, caseSensitive)
    else if Fold(children[i].name.value, caseSensitive) == Fold(name, caseSensitive) then Some(i)
    else Lookup(children, i + 1, name, caseSensitive)
  }

  function Find(obj: Item, name: Option<CString>, caseSensitive: bool): (r: Option<nat>)
    ensures r.Some? ==> r.value < |obj.children| && name.Some? && obj.children[r.value].name.Some?
                        && Fold(obj.children[r.value].name.value, caseSensitive) == Fold(name.value, caseSensitive)
  {
    match name
    case None => None
    case Some(n) => Lookup(obj.children, 0, n, caseSensitive)
  }

  predicate Matches(child: Item, name: CString, caseSensitive: bool) {
    child.name.Some? && SameName(child.name.value, name, caseSensitive)
  }

  /** The first child that matches; the case-sensitive search looks no further than a child without a name. */
  predicate Finds(children: seq<Item>, name: CString, caseSensitive: bool, r: Option<nat>) {
    match r
    case Some(k) =>
      && k < |children| && Matches(children[k], name, caseSensitive)
      && forall i :: 0 <= i < k ==> !Matches(children[i], name, caseSensitive) && (caseSensitive ==> children[i].name.Some?)
    case None =>
      forall i :: 0 <= i < |children| && Matches(children[i], name, caseSensitive) ==>
        caseSensitive && exists k :: 0 <= k < i && children[k].name.None?
  }

  /** get_object_item */
  method GetObjectItem(obj: Item, name: Option<CString>, caseSensitive: bool) returns (r: Option<nat>)
    ensures r == Find(obj, name, caseSensitive)
    ensures if name.None? then r.None? else Finds(obj.children, name.value, caseSensitive, r)
  {
    if name.None? {
      return None;
    }
    var i := 0;
    while i < |obj.children|
      invariant 0 <= i <= |obj.children|
      invariant Find(obj, name, caseSensitive) == Lookup(obj.children, i, name.value, caseSensitive)
      invariant forall k :: 0 <= k < i ==>
        !Matches(obj.children[k], name.value, caseSensitive) && (caseSensitive ==> obj.children[k].name.Some?)
    {
      var key := obj.children[i].name;
      if key.Some? {
        FoldsAlike(key.value, name.value, caseSensitive);
      }
      if key.None? {
        if caseSensitive {
          return None;
        }
      } else if caseSensitive {
        if name.value == key.value {
          assert Matches(obj.children[i], name.value, caseSensitive);
          return Some(i);
        }
      } else {
        var same := SameIgnoringCase(key.value, name.value);
        if same {
          return Some(i);
        }
      }
      i := i + 1;
    }
    return None;
  }

  // ---- comparison ----

  function Height(item: Item): nat {
    1 + MaxHeight(item.children)
  }

  function MaxHeight(items: seq<Item>): nat {
    if items == [] then 0
    else if Height(items[0]) < MaxHeight(items[1..]) then MaxHeight(items[1..])
    else Height(items[0])
  }

  lemma {:induction false} ChildHeight(items: seq<Item>, i: nat)
    requires i < |items|
    ensures Height(items[i]) <= MaxHeight(items)
  {
    if i > 0 {
      ChildHeight(items[1..], i - 1);
    }
  }

  /** cJSON_Compare on two trees that share no node. */
  predicate Compare(a: Item, b: Item, caseSensitive: bool)
    decreases Height(a) + Height(b), 1
  {
    a.kind == b.kind &&
    match a.kind
    case Invalid => false
    case False | True | Null => true
    case Number => a.number != NaN && a.number == b.number
    case String | Raw => a.text.Some? && b.text.Some? && a.text == b.text
    case Array =>
      && |a.children| == |b.children|
      && forall i | 0 <= i < |a.children| ::
           (ChildHeight(a.children, i); ChildHeight(b.children, i); Compare(a.children[i], b.children[i], caseSensitive))
    case Object => MembersFound(a, b, caseSensitive) && MembersFound(b, a, caseSensitive)
  }

  /** Every member of a compares equal to the first member of b with its key. */
  predicate MembersFound(a: Item, b: Item, caseSensitive: bool)
    decreases Height(a) + Height(b), 0
  {
    forall i | 0 <= i < |a.children| ::
      var j := Find(b, a.children[i].name, caseSensitive);
      j.Some? && (ChildHeight(a.children, i); ChildHeight(b.children, j.value);
                  Compare(a.children[i], b.children[j.value], caseSensitive))
  }

  /** Tells whether two nodes are one and the same, as a comparison of pointers does. */
  type Identity = (Item, Item) -> bool

  /** One node has one content. */
  ghost predicate Sensible(same: Identity) {
    forall x, y :: same(x, y) ==> x == y
  }

  /** cJSON_Compare on trees that may share nodes: a node always equals itself. */
  predicate CompareNodes(a: Item, b: Item, caseSensitive: bool, same: Identity)
    decreases Height(a) + Height(b), 1
  {
    a.kind == b.kind && !a.kind.Invalid? &&
    (same(a, b) ||
     match a.kind
     case Array =>
       && |a.children| == |b.children|
       && forall i | 0 <= i < |a.children| ::
            (ChildHeight(a.children, i); ChildHeight(b.children, i);
             CompareNodes(a.children[i], b.children[i], caseSensitive, same))
     case Object => NodesFound(a, b, caseSensitive, same) && NodesFound(b, a, caseSensitive, same)
     case _ => Compare(a, b, caseSensitive))
  }

  predicate NodesFound(a: Item, b: Item, caseSensitive: bool, same: Identity)
    decreases Height(a) + Height(b), 0
  {
    forall i | 0 <= i < |a.children| ::
      var j := Find(b, a.children[i].name, caseSensitive);
      j.Some? && (ChildHeight(a.children, i); ChildHeight(b.children, j.value);
                  CompareNodes(a.children[i], b.children[j.value], caseSensitive, same))
  }

  /** The loops of cJSON_Compare. */
  method CompareItems(a: Item, b: Item, caseSensitive: bool, same: Identity) returns (equal: bool)
    ensures equal == CompareNodes(a, b, caseSensitive, same)
    decreases Height(a) + Height(b), 1
  {
    if a.kind != b.kind || a.kind.Invalid? {
      return false;
    }
    if same(a, b) {
      return true;
    }
    match a.kind
    case False | True | Null => return true;
    case Number => return a.number != NaN && a.number == b.number;
    case String | Raw =>
      if a.text.None? || b.text.None? {
        return false;
      }
      return a.text.value == b.text.value;
    case Array =>
      var i := 0;
      while i < |a.children| && i < |b.children|
        invariant 0 <= i <= |a.children| && i <= |b.children|
        invariant forall k :: 0 <= k < i ==> CompareNodes(a.children[k], b.children[k], caseSensitive, same)
      {
        ChildHeight(a.children, i);
        ChildHeight(b.children, i);
        var alike := CompareItems(a.children[i], b.children[i], caseSensitive, same);
        if !alike {
          return false;
        }
        i := i + 1;
      }
      return i == |a.children| && i == |b.children|;
    case Object =>
      equal := FindMembers(a, b, caseSensitive, same);
      if equal {
        equal := FindMembers(b, a, caseSensitive, same);
      }
  }

  method FindMembers(a: Item, b: Item, caseSensitive: bool, same: Identity) returns (found: bool)
    ensures found == NodesFound(a, b, caseSensitive, same)
    decreases Height(a) + Height(b), 0
  {
    var i := 0;
    while i < |a.children|
      invariant 0 <= i <= |a.children|
      invariant forall k :: 0 <= k < i ==>
        var j := Find(b, a.children[k].name, caseSensitive);
        j.Some? && CompareNodes(a.children[k], b.children[j.value], caseSensitive, same)
    {
      var j := GetObjectItem(b, a.children[i].name, caseSensitive);
      if j.None? {
        return false;
      }
      ChildHeight(a.children, i);
      ChildHeight(b.children, j.value);
      var alike := CompareItems(a.children[i], b.children[j.value], caseSensitive, same);
      if !alike {
        return false;
      }
      i := i + 1;
    }
    return true;
  }

  // ---- what a tree means ----

  /** The JSON value of a tree: an object is a finite map from keys, so its order is gone. */
  datatype Value =
    | Unknown
    | Literal(kind: Kind)
    | Numeric(number: Double)
    | Text(kind: Kind, text: Option<CString>)
    | List(items: seq<Value>)
    | Record(members: map<CString, Value>)

  function Meaning(item: Item, caseSensitive: bool): Value
    decreases item
  {
    match item.kind
    case Invalid => Unknown
    case False | True | Null => Literal(item.kind)
    case Number => Numeric(item.number)
    case String | Raw => Text(item.kind, item.text)
    case Array => List(Meanings(item.children, caseSensitive))
    case Object => Record(Members(item.children, caseSensitive))
  }

  function Meanings(items: seq<Item>, caseSensitive: bool): (r: seq<Value>)
    ensures |r| == |items|
    ensures forall i :: 0 <= i < |items| ==> r[i] == Meaning(items[i], caseSensitive)
    decreases items
  {
    if items == [] then [] else [Meaning(items[0], caseSensitive)] + Meanings(items[1..], caseSensitive)
  }

  /** The first member with a key decides, as in a lookup; members without a name have no key. */
  function Members(items: seq<Item>, caseSensitive: bool): map<CString, Value>
    decreases items
  {
    if items == [] then map[]
    else
      var rest := Members(items[1..], caseSensitive);
      if items[0].name.None? then rest
      else rest[Fold(items[0].name.value, caseSensitive) := Meaning(items[0], caseSensitive)]
  }

  /** A tree comparison can handle: valid kinds, texts and names present, no NaN, and members that
      repeat a key mean the same. */
  predicate Tame(item: Item, caseSensitive: bool)
    decreases item
  {
    match item.kind
    case Invalid => false
    case False | True | Null => true
    case Number => item.number != NaN
    case String | Raw => item.text.Some?
    case Array => forall i | 0 <= i < |item.children| :: Tame(item.children[i], caseSensitive)
    case Object =>
      && (forall i | 0 <= i < |item.children| :: item.children[i].name.Some? && Tame(item.children[i], caseSensitive))
      && Consistent(item.children, caseSensitive)
  }

  predicate SameKey(x: Item, y: Item, caseSensitive: bool) {
    x.name.Some? && y.name.Some? && Fold(x.name.value, caseSensitive) == Fold(y.name.value, caseSensitive)
  }

  predicate Consistent(items: seq<Item>, caseSensitive: bool) {
    forall i, j | 0 <= i < j < |items| && SameKey(items[i], items[j], caseSensitive) ::
      Meaning(items[i], caseSensitive) == Meaning(items[j], caseSensitive)
  }

  predicate AllNamed(items: seq<Item>) {
    forall i | 0 <= i < |items| :: items[i].name.Some?
  }

  lemma ConsistentTail(items: seq<Item>, caseSensitive: bool)
    requires items != [] && Consistent(items, caseSensitive)
    ensures Consistent(items[1..], caseSensitive)
  {
    hide Meaning;
    var rest := items[1..];
    forall i, j | 0 <= i < j < |rest| && SameKey(rest[i], rest[j], caseSensitive)
      ensures Meaning(rest[i], caseSensitive) == Meaning(rest[j], caseSensitive)
    {
      assert SameKey(items[i + 1], items[j + 1], caseSensitive);
    }
  }

  lemma {:induction false} MemberHeld(items: seq<Item>, caseSensitive: bool, i: nat)
    requires AllNamed(items) && Consistent(items, caseSensitive) && i < |items|
    ensures var m, k := Members(items, caseSensitive), Fold(items[i].name.value, caseSensitive);
            k in m && m[k] == Meaning(items[i], caseSensitive)
  {
    hide Meaning, Fold;
    if i > 0 {
      ConsistentTail(items, caseSensitive);
      MemberHeld(items[1..], caseSensitive, i - 1);
      if SameKey(items[0], items[i], caseSensitive) {
        assert Meaning(items[0], caseSensitive) == Meaning(items[i], caseSensitive);
      }
    }
  }

  lemma {:induction false} KeyHasMember(items: seq<Item>, caseSensitive: bool, k: CString) returns (i: nat)
    requires AllNamed(items) && k in Members(items, caseSensitive)
    ensures i < |items| && k == Fold(items[i].name.value, caseSensitive)
  {
    hide Meaning, Fold;
    if k == Fold(items[0].name.value, caseSensitive) {
      i := 0;
    } else {
      i := KeyHasMember(items[1..], caseSensitive, k);
      i := i + 1;
    }
  }

  /** With consistent members the map holds exactly what the members say. */
  lemma {:induction false} MembersMap(items: seq<Item>, caseSensitive: bool)
    requires AllNamed(items) && Consistent(items, caseSensitive)
    ensures var m := Members(items, caseSensitive);
            && (forall i | 0 <= i < |items| :: Fold(items[i].name.value, caseSensitive) in m
                  && m[Fold(items[i].name.value, caseSensitive)] == Meaning(items[i], caseSensitive))
            && (forall k | k in m :: exists i :: 0 <= i < |items| && k == Fold(items[i].name.value, caseSensitive))
  {
    hide Meaning, Fold, Members;
    var m := Members(items, caseSensitive);
    forall i | 0 <= i < |items|
      ensures Fold(items[i].name.value, caseSensitive) in m
      ensures m[Fold(items[i].name.value, caseSensitive)] == Meaning(items[i], caseSensitive)
    {
      MemberHeld(items, caseSensitive, i);
    }
    forall k | k in m ensures exists i :: 0 <= i < |items| && k == Fold(items[i].name.value, caseSensitive) {
      var i := KeyHasMember(items, caseSensitive, k);
    }
  }

  /** Among named members a lookup finds a key exactly when one of them has it. */
  lemma {:induction false} LookupFinds(items: seq<Item>, i: nat, name: CString, caseSensitive: bool)
    requires i <= |items| && AllNamed(items)
    ensures Lookup(items, i, name, caseSensitive).Some? <==>
            exists k :: i <= k < |items| && Fold(items[k].name.value, caseSensitive) == Fold(name, caseSensitive)
    decreases |items| - i
  {
    if i < |items| {
      LookupFinds(items, i + 1, name, caseSensitive);
    }
  }

  lemma {:induction false} LookupByFold(items: seq<Item>, i: nat, x: CString, y: CString, caseSensitive: bool)
    requires i <= |items| && Fold(x, caseSensitive) == Fold(y, caseSensitive)
    ensures Lookup(items, i, x, caseSensitive) == Lookup(items, i, y, caseSensitive)
    decreases |items| - i
  {
    if i < |items| {
      LookupByFold(items, i + 1, x, y, caseSensitive);
    }
  }

  // ---- comparison decides equality of meaning ----

  /** For all trees: comparison says yes exactly when both trees are tame and mean the same. */
  lemma {:induction false} CompareDecides(a: Item, b: Item, caseSensitive: bool)
    ensures Compare(a, b, caseSensitive) <==>
            Tame(a, caseSensitive) && Tame(b, caseSensitive) && Meaning(a, caseSensitive) == Meaning(b, caseSensitive)
    decreases Height(a) + Height(b), 4
  {
    if a.kind == b.kind {
      if a.kind.Array? {
        ArraysDecide(a, b, caseSensitive);
      } else if a.kind.Object? {
        if Compare(a, b, caseSensitive) {
          ObjectsAlike(a, b, caseSensitive);
        }
        if Tame(a, caseSensitive) && Tame(b, caseSensitive) && Meaning(a, caseSensitive) == Meaning(b, caseSensitive) {
          MembersAlike(a, b, caseSensitive);
          MembersAlike(b, a, caseSensitive);
        }
      }
    }
  }

  lemma {:induction false} ArraysDecide(a: Item, b: Item, caseSensitive: bool)
    requires a.kind.Array? && b.kind.Array?
    ensures Compare(a, b, caseSensitive) <==>
            Tame(a, caseSensitive) && Tame(b, caseSensitive) && Meaning(a, caseSensitive) == Meaning(b, caseSensitive)
    decreases Height(a) + Height(b), 0
  {
    var x, y := Meanings(a.children, caseSensitive), Meanings(b.children, caseSensitive);
    forall i | 0 <= i < |x| && i < |y|
      ensures Compare(a.children[i], b.children[i], caseSensitive) <==>
              Tame(a.children[i], caseSensitive) && Tame(b.children[i], caseSensitive) && x[i] == y[i]
    {
      ChildHeight(a.children, i);
      ChildHeight(b.children, i);
      CompareDecides(a.children[i], b.children[i], caseSensitive);
    }
    if Compare(a, b, caseSensitive) {
      assert x == y;
    }
  }

  /** What one direction of the member loops shows about a. */
  lemma {:induction false} FoundMembers(a: Item, b: Item, caseSensitive: bool)
    requires MembersFound(a, b, caseSensitive)
    ensures AllNamed(a.children) && Consistent(a.children, caseSensitive)
    ensures forall i | 0 <= i < |a.children| :: Tame(a.children[i], caseSensitive)
    ensures forall i | 0 <= i < |a.children| ::
              var j := Find(b, a.children[i].name, caseSensitive);
              j.Some? && Meaning(a.children[i], caseSensitive) == Meaning(b.children[j.value], caseSensitive)
    decreases Height(a) + Height(b), 0
  {
    hide Tame, Meaning, Compare, Fold;
    forall i | 0 <= i < |a.children|
      ensures a.children[i].name.Some? && Tame(a.children[i], caseSensitive)
      ensures var j := Find(b, a.children[i].name, caseSensitive);
              j.Some? && Meaning(a.children[i], caseSensitive) == Meaning(b.children[j.value], caseSensitive)
    {
      var j := Find(b, a.children[i].name, caseSensitive);
      ChildHeight(a.children, i);
      ChildHeight(b.children, j.value);
      CompareDecides(a.children[i], b.children[j.value], caseSensitive);
    }
    forall i, k | 0 <= i < k < |a.children| && SameKey(a.children[i], a.children[k], caseSensitive)
      ensures Meaning(a.children[i], caseSensitive) == Meaning(a.children[k], caseSensitive)
    {
      LookupByFold(b.children, 0, a.children[i].name.value, a.children[k].name.value, caseSensitive);
    }
  }

  lemma {:induction false} ObjectsAlike(a: Item, b: Item, caseSensitive: bool)
    requires a.kind.Object? && b.kind.Object? && Compare(a, b, caseSensitive)
    ensures Tame(a, caseSensitive) && Tame(b, caseSensitive) && Meaning(a, caseSensitive) == Meaning(b, caseSensitive)
    decreases Height(a) + Height(b), 2
  {
    FoundBothWays(a, b, caseSensitive);
  }

  lemma {:induction false} FoundBothWays(a: Item, b: Item, caseSensitive: bool)
    requires MembersFound(a, b, caseSensitive) && MembersFound(b, a, caseSensitive)
    ensures AllNamed(a.children) && Consistent(a.children, caseSensitive) && AllNamed(b.children) && Consistent(b.children, caseSensitive)
    ensures forall i | 0 <= i < |a.children| :: Tame(a.children[i], caseSensitive)
    ensures forall i | 0 <= i < |b.children| :: Tame(b.children[i], caseSensitive)
    ensures Members(a.children, caseSensitive) == Members(b.children, caseSensitive)
    decreases Height(a) + Height(b), 1
  {
    hide Tame, Compare, Fold;
    FoundMembers(a, b, caseSensitive);
    FoundMembers(b, a, caseSensitive);
    SubMap(a, b, caseSensitive);
    SubMap(b, a, caseSensitive);
    SameMaps(Members(a.children, caseSensitive), Members(b.children, caseSensitive));
  }

  predicate Within(x: map<CString, Value>, y: map<CString, Value>) {
    forall k | k in x :: k in y && x[k] == y[k]
  }

  lemma SameMaps(x: map<CString, Value>, y: map<CString, Value>)
    requires Within(x, y) && Within(y, x)
    ensures x == y
  {
  }

  lemma SubMap(a: Item, b: Item, caseSensitive: bool)
    requires AllNamed(a.children) && Consistent(a.children, caseSensitive) && AllNamed(b.children) && Consistent(b.children, caseSensitive)
    requires forall i | 0 <= i < |a.children| ::
               var j := Find(b, a.children[i].name, caseSensitive);
               j.Some? && Meaning(a.children[i], caseSensitive) == Meaning(b.children[j.value], caseSensitive)
    ensures Within(Members(a.children, caseSensitive), Members(b.children, caseSensitive))
  {
    hide Meaning, Fold, Members, Consistent;
    var x, y := Members(a.children, caseSensitive), Members(b.children, caseSensitive);
    forall k | k in x ensures k in y && x[k] == y[k] {
      var i := MemberWithKey(a.children, caseSensitive, k);
      var j := Find(b, a.children[i].name, caseSensitive);
      assert Fold(b.children[j.value].name.value, caseSensitive) == k;
      MemberIsMapped(a.children, caseSensitive, i);
      MemberIsMapped(b.children, caseSensitive, j.value);
    }
  }

  lemma {:induction false} MembersAlike(a: Item, b: Item, caseSensitive: bool)
    requires a.kind.Object? && b.kind.Object? && Tame(a, caseSensitive) && Tame(b, caseSensitive)
    requires Meaning(a, caseSensitive) == Meaning(b, caseSensitive)
    ensures MembersFound(a, b, caseSensitive)
    decreases Height(a) + Height(b), 0
  {
    hide Compare, Fold;
    assert Members(a.children, caseSensitive) == Members(b.children, caseSensitive);
    forall i | 0 <= i < |a.children|
      ensures var j := Find(b, a.children[i].name, caseSensitive);
              j.Some? && Compare(a.children[i], b.children[j.value], caseSensitive)
    {
      hide Meaning, Members;
      MemberIsMapped(a.children, caseSensitive, i);
      MembersMap(b.children, caseSensitive);
      var k := Fold(a.children[i].name.value, caseSensitive);
      assert k in Members(b.children, caseSensitive);
      LookupFinds(b.children, 0, a.children[i].name.value, caseSensitive);
      var j := Find(b, a.children[i].name, caseSensitive);
      ChildHeight(a.children, i);
      ChildHeight(b.children, j.value);
      CompareDecides(a.children[i], b.children[j.value], caseSensitive);
    }
  }

  // ---- consequences ----

  /** Comparison is symmetric and transitive on all trees; it is reflexive exactly on the tame ones. */
  lemma CompareIsPartialEquivalence(a: Item, b: Item, c: Item, caseSensitive: bool)
    ensures Compare(a, b, caseSensitive) ==> Compare(b, a, caseSensitive)
    ensures Compare(a, b, caseSensitive) && Compare(b, c, caseSensitive) ==> Compare(a, c, caseSensitive)
    ensures Compare(a, a, caseSensitive) <==> Tame(a, caseSensitive)
  {
    hide Compare, Tame, Meaning;
    CompareDecides(a, a, caseSensitive);
    CompareDecides(a, b, caseSensitive);
    CompareDecides(b, a, caseSensitive);
    CompareDecides(b, c, caseSensitive);
    CompareDecides(a, c, caseSensitive);
  }

  // ---- shared nodes ----

  lemma {:induction false} CompareIgnoresSharing(a: Item, b: Item, caseSensitive: bool, same: Identity)
    requires Compare(a, b, caseSensitive)
    ensures CompareNodes(a, b, caseSensitive, same)
    decreases Height(a) + Height(b), 1
  {
    match a.kind {
      case Array =>
        forall i | 0 <= i < |a.children| ensures CompareNodes(a.children[i], b.children[i], caseSensitive, same) {
          ChildHeight(a.children, i);
          ChildHeight(b.children, i);
          CompareIgnoresSharing(a.children[i], b.children[i], caseSensitive, same);
        }
      case Object =>
        FoundIgnoresSharing(a, b, caseSensitive, same);
        FoundIgnoresSharing(b, a, caseSensitive, same);
      case _ =>
    }
  }

  lemma {:induction false} FoundIgnoresSharing(a: Item, b: Item, caseSensitive: bool, same: Identity)
    requires MembersFound(a, b, caseSensitive)
    ensures NodesFound(a, b, caseSensitive, same)
    decreases Height(a) + Height(b), 0
  {
    forall i | 0 <= i < |a.children|
      ensures var j := Find(b, a.children[i].name, caseSensitive);
              j.Some? && CompareNodes(a.children[i], b.children[j.value], caseSensitive, same)
    {
      var j := Find(b, a.children[i].name, caseSensitive);
      ChildHeight(a.children, i);
      ChildHeight(b.children, j.value);
      CompareIgnoresSharing(a.children[i], b.children[j.value], caseSensitive, same);
    }
  }

  /** If one of two trees is tame, sharing nodes does not change the answer. */
  lemma {:induction false} SharingIsHarmless(a: Item, b: Item, caseSensitive: bool, same: Identity)
    requires Sensible(same) && (Tame(a, caseSensitive) || Tame(b, caseSensitive))
    ensures CompareNodes(a, b, caseSensitive, same) <==> Compare(a, b, caseSensitive)
    decreases Height(a) + Height(b), 1
  {
    if Compare(a, b, caseSensitive) {
      CompareIgnoresSharing(a, b, caseSensitive, same);
    }
    if CompareNodes(a, b, caseSensitive, same) {
      if same(a, b) {
        CompareDecides(a, b, caseSensitive);
      } else if a.kind.Array? {
        forall i | 0 <= i < |a.children| ensures Compare(a.children[i], b.children[i], caseSensitive) {
          ChildHeight(a.children, i);
          ChildHeight(b.children, i);
          SharingIsHarmless(a.children[i], b.children[i], caseSensitive, same);
        }
      } else if a.kind.Object? {
        FoundDespiteSharing(a, b, caseSensitive, same);
        FoundDespiteSharing(b, a, caseSensitive, same);
      }
    }
  }

  lemma {:induction false} FoundDespiteSharing(a: Item, b: Item, caseSensitive: bool, same: Identity)
    requires Sensible(same) && a.kind.Object? && b.kind.Object? && (Tame(a, caseSensitive) || Tame(b, caseSensitive))
    requires NodesFound(a, b, caseSensitive, same)
    ensures MembersFound(a, b, caseSensitive)
    decreases Height(a) + Height(b), 0
  {
    forall i | 0 <= i < |a.children|
      ensures var j := Find(b, a.children[i].name, caseSensitive);
              j.Some? && Compare(a.children[i], b.children[j.value], caseSensitive)
    {
      var j := Find(b, a.children[i].name, caseSensitive);
      ChildHeight(a.children, i);
      ChildHeight(b.children, j.value);
      SharingIsHarmless(a.children[i], b.children[j.value], caseSensitive, same);
    }
  }

  /** The whole law, sharing or not: a comparison with a tame tree says yes exactly if the other one is tame too
      and means the same; and any node of a known kind equals itself. */
  lemma ComparingNodesDecides(a: Item, b: Item, caseSensitive: bool, same: Identity)
    requires Sensible(same)
    ensures Tame(a, caseSensitive) || Tame(b, caseSensitive) ==>
              (CompareNodes(a, b, caseSensitive, same) <==>
                 Tame(a, caseSensitive) && Tame(b, caseSensitive) && Meaning(a, caseSensitive) == Meaning(b, caseSensitive))
    ensures same(a, b) ==> (CompareNodes(a, b, caseSensitive, same) <==> !a.kind.Invalid?)
  {
    if Tame(a, caseSensitive) || Tame(b, caseSensitive) {
      SharingIsHarmless(a, b, caseSensitive, same);
      CompareDecides(a, b, caseSensitive);
    }
  }

  /** Objects with the same members in whatever order compare equal. */
  lemma OrderDoesNotMatter(a: Item, b: Item, caseSensitive: bool)
    requires a.kind.Object? && b.kind.Object? && Tame(a, caseSensitive) && Tame(b, caseSensitive)
    requires multiset(a.children) == multiset(b.children)
    ensures Compare(a, b, caseSensitive)
  {
    forall x: Item ensures x in a.children <==> x in b.children {
      assert x in a.children <==> x in multiset(a.children);
      assert x in b.children <==> x in multiset(b.children);
    }
    SameMembers(a.children, b.children, caseSensitive);
    SameMembers(b.children, a.children, caseSensitive);
    SameMaps(Members(a.children, caseSensitive), Members(b.children, caseSensitive));
    CompareDecides(a, b, caseSensitive);
  }

  lemma SameMembers(a: seq<Item>, b: seq<Item>, caseSensitive: bool)
    requires AllNamed(a) && Consistent(a, caseSensitive) && AllNamed(b) && Consistent(b, caseSensitive)
    requires forall x :: x in a ==> x in b
    ensures Within(Members(a, caseSensitive), Members(b, caseSensitive))
  {
    hide Meaning, Fold, Members;
    var x, y := Members(a, caseSensitive), Members(b, caseSensitive);
    forall k | k in x ensures k in y && x[k] == y[k] {
      var i := MemberWithKey(a, caseSensitive, k);
      assert a[i] in b;
      var j :| 0 <= j < |b| && b[j] == a[i];
      MemberIsMapped(a, caseSensitive, i);
      MemberIsMapped(b, caseSensitive, j);
    }
  }

  lemma MemberWithKey(items: seq<Item>, caseSensitive: bool, k: CString) returns (i: nat)
    requires AllNamed(items) && Consistent(items, caseSensitive) && k in Members(items, caseSensitive)
    ensures i < |items| && k == Fold(items[i].name.value, caseSensitive)
  {
    hide Meaning, Fold, Members, Consistent;
    MembersMap(items, caseSensitive);
    i :| 0 <= i < |items| && k == Fold(items[i].name.value, caseSensitive);
  }

  lemma MemberIsMapped(items: seq<Item>, caseSensitive: bool, i: nat)
    requires AllNamed(items) && Consistent(items, caseSensitive) && i < |items|
    ensures var k, m := Fold(items[i].name.value, caseSensitive), Members(items, caseSensitive);
            k in m && m[k] == Meaning(items[i], caseSensitive)
  {
    hide Meaning, Fold, Members, Consistent;
    MembersMap(items, caseSensitive);
  }

  /** Keys are unique under the chosen comparison, everywhere in the tree. */
  predicate UniqueKeys(item: Item, caseSensitive: bool)
    decreases item
  {
    && (forall i | 0 <= i < |item.children| :: UniqueKeys(item.children[i], caseSensitive))
    && (item.kind.Object? ==>
          forall i, j | 0 <= i < j < |item.children| :: !SameKey(item.children[i], item.children[j], caseSensitive))
  }

  /** What cJSON itself builds: known kinds, texts on strings, names on members, no NaN. */
  predicate Proper(item: Item)
    decreases item
  {
    && !item.kind.Invalid?
    && (item.kind.Number? ==> item.number != NaN)
    && (item.kind.String? || item.kind.Raw? ==> item.text.Some?)
    && (item.kind.Object? ==> AllNamed(item.children))
    && forall i | 0 <= i < |item.children| :: Proper(item.children[i])
  }

  lemma {:induction false} ProperIsTame(item: Item, caseSensitive: bool)
    requires Proper(item) && UniqueKeys(item, caseSensitive)
    ensures Tame(item, caseSensitive)
    decreases item
  {
    forall i | 0 <= i < |item.children| ensures Tame(item.children[i], caseSensitive) {
      ProperIsTame(item.children[i], caseSensitive);
    }
  }

  // ---- comparison without a lookup ----

  /** Equal as JSON values, member order apart: the two trees agree kind by kind, and each member of either object
      has a partner of a matching name in the other. */
  ghost predicate Alike(a: Item, b: Item, caseSensitive: bool)
    decreases Height(a) + Height(b), 1
  {
    a.kind == b.kind &&
    match a.kind
    case Number => a.number == b.number
    case String | Raw => a.text == b.text
    case Array =>
      && |a.children| == |b.children|
      && forall i | 0 <= i < |a.children| ::
           (ChildHeight(a.children, i); ChildHeight(b.children, i); Alike(a.children[i], b.children[i], caseSensitive))
    case Object => Partners(a, b, caseSensitive) && Partners(b, a, caseSensitive)
    case _ => true
  }

  ghost predicate Partners(a: Item, b: Item, caseSensitive: bool)
    decreases Height(a) + Height(b), 0
  {
    forall i | 0 <= i < |a.children| :: exists j | 0 <= j < |b.children| ::
      && a.children[i].name.Some? && Matches(b.children[j], a.children[i].name.value, caseSensitive)
      && (ChildHeight(a.children, i); ChildHeight(b.children, j); Alike(a.children[i], b.children[j], caseSensitive))
  }

  /** On trees as cJSON builds them, with unique keys, that is what comparison decides. */
  lemma {:induction false} CompareIsAlike(a: Item, b: Item, caseSensitive: bool)
    requires Proper(a) && UniqueKeys(a, caseSensitive) && Proper(b) && UniqueKeys(b, caseSensitive)
    ensures Compare(a, b, caseSensitive) <==> Alike(a, b, caseSensitive)
    decreases Height(a) + Height(b), 1
  {
    if a.kind == b.kind {
      match a.kind {
        case Array =>
          if |a.children| == |b.children| {
            forall i | 0 <= i < |a.children|
              ensures Compare(a.children[i], b.children[i], caseSensitive) <==> Alike(a.children[i], b.children[i], caseSensitive)
            {
              ChildHeight(a.children, i);
              ChildHeight(b.children, i);
              CompareIsAlike(a.children[i], b.children[i], caseSensitive);
            }
          }
        case Object =>
          FoundIsPartners(a, b, caseSensitive);
          FoundIsPartners(b, a, caseSensitive);
        case _ =>
      }
    }
  }

  lemma {:induction false} FoundIsPartners(a: Item, b: Item, caseSensitive: bool)
    requires a.kind.Object? && Proper(a) && UniqueKeys(a, caseSensitive)
    requires b.kind.Object? && Proper(b) && UniqueKeys(b, caseSensitive)
    ensures MembersFound(a, b, caseSensitive) <==> Partners(a, b, caseSensitive)
    decreases Height(a) + Height(b), 0
  {
    hide Compare, Alike, Fold, SameName;
    forall i, j | 0 <= i < |a.children| && 0 <= j < |b.children|
      ensures Compare(a.children[i], b.children[j], caseSensitive) <==> Alike(a.children[i], b.children[j], caseSensitive)
      ensures Find(b, a.children[i].name, caseSensitive) == Some(j)
              <==> Matches(b.children[j], a.children[i].name.value, caseSensitive)
    {
      ChildHeight(a.children, i);
      ChildHeight(b.children, j);
      CompareIsAlike(a.children[i], b.children[j], caseSensitive);
      OnlyPartner(b, a.children[i].name.value, j, caseSensitive);
    }
    if MembersFound(a, b, caseSensitive) {
      forall i | 0 <= i < |a.children|
        ensures exists j | 0 <= j < |b.children| ::
          && a.children[i].name.Some? && Matches(b.children[j], a.children[i].name.value, caseSensitive)
          && Alike(a.children[i], b.children[j], caseSensitive)
      {
        var j := Find(b, a.children[i].name, caseSensitive).value;
        assert Matches(b.children[j], a.children[i].name.value, caseSensitive);
      }
    }
  }

  /** Among unique keys the lookup finds the only match. */
  lemma OnlyPartner(b: Item, name: CString, j: nat, caseSensitive: bool)
    requires b.kind.Object? && AllNamed(b.children) && UniqueKeys(b, caseSensitive) && j < |b.children|
    ensures Find(b, Some(name), caseSensitive) == Some(j) <==> Matches(b.children[j], name, caseSensitive)
  {
    FoldsAlike(b.children[j].name.value, name, caseSensitive);
    hide Fold, SameName;
    LookupFinds(b.children, 0, name, caseSensitive);
    if Matches(b.children[j], name, caseSensitive) {
      var k := Find(b, Some(name), caseSensitive).value;
      assert SameKey(b.children[k], b.children[j], caseSensitive) && SameKey(b.children[j], b.children[k], caseSensitive);
    }
  }

  // ---- duplication ----

  /** The same node all through, field by field, but for the reference flag. */
  predicate CopyOf(copy: Item, item: Item)
    decreases item
  {
    && copy.kind == item.kind && copy.text == item.text && copy.number == item.number
    && copy.name == item.name && copy.nameIsConst == item.nameIsConst && !copy.isReference
    && |copy.children| == |item.children| && forall i | 0 <= i < |item.children| :: CopyOf(copy.children[i], item.children[i])
  }

  lemma {:induction false} CopyIsCopy(item: Item)
    ensures CopyOf(Copy(item), item)
    decreases item
  {
    forall i | 0 <= i < |item.children| ensures CopyOf(Copy(item).children[i], item.children[i]) {
      CopyIsCopy(item.children[i]);
    }
  }

  /** A recursive copy; only the reference flag is dropped. */
  function Copy(item: Item): Item
    decreases item
  {
    item.(isReference := false, children := Copies(item.children))
  }

  function Copies(items: seq<Item>): (r: seq<Item>)
    ensures |r| == |items| && forall i :: 0 <= i < |items| ==> r[i] == Copy(items[i])
    decreases items
  {
    if items == [] then [] else [Copy(items[0])] + Copies(items[1..])
  }

  /** cJSON_Duplicate */
  method Duplicate(item: Item, recurse: bool) returns (copy: Item)
    ensures copy == if recurse then Copy(item) else item.(isReference := false, children := [])
    ensures if recurse then CopyOf(copy, item) else CopyOf(copy, item.(children := []))
    decreases item
  {
    copy := item.(isReference := false, children := []);
    if !recurse {
      return;
    }
    CopyIs(item);
    CopyIsCopy(item);
    hide Copy, Copies, CopyOf;
    var i := 0;
    var children: seq<Item> := [];
    while i < |item.children|
      invariant 0 <= i <= |item.children| == |Copies(item.children)|
      invariant children == Copies(item.children)[..i]
    {
      var child := Duplicate(item.children[i], true);
      CopiesAt(item.children, i);
      PrefixGrows(Copies(item.children), i);
      children := children + [child];
      i := i + 1;
    }
    assert children == Copies(item.children);
    copy := copy.(children := children);
  }

  lemma {:induction false} CopiesAt(items: seq<Item>, i: nat)
    requires i < |items|
    ensures |Copies(items)| == |items| && Copies(items)[i] == Copy(items[i])
    decreases items
  {
    hide Copy;
    if i > 0 {
      CopiesAt(items[1..], i - 1);
    }
  }

  lemma PrefixGrows(items: seq<Item>, i: nat)
    requires i < |items|
    ensures items[..i + 1] == items[..i] + [items[i]]
  {
  }

  lemma CopyIs(item: Item)
    ensures Copy(item) == item.(isReference := false, children := Copies(item.children))
  {
  }

  lemma {:induction false} CopyMeansSame(item: Item, caseSensitive: bool)
    ensures Meaning(Copy(item), caseSensitive) == Meaning(item, caseSensitive)
    decreases item, 1
  {
    CopiesMeanSame(item.children, caseSensitive);
  }

  lemma {:induction false} CopiesMeanSame(items: seq<Item>, caseSensitive: bool)
    ensures Meanings(Copies(items), caseSensitive) == Meanings(items, caseSensitive)
    ensures Members(Copies(items), caseSensitive) == Members(items, caseSensitive)
    decreases items, 0
  {
    if items != [] {
      CopyMeansSame(items[0], caseSensitive);
      CopiesMeanSame(items[1..], caseSensitive);
      assert Copies(items)[1..] == Copies(items[1..]);
    }
  }

  lemma {:induction false} CopyIsTame(item: Item, caseSensitive: bool)
    ensures Tame(Copy(item), caseSensitive) <==> Tame(item, caseSensitive)
    decreases item
  {
    var copy := Copy(item);
    forall i | 0 <= i < |item.children|
      ensures Tame(copy.children[i], caseSensitive) <==> Tame(item.children[i], caseSensitive)
      ensures Meaning(copy.children[i], caseSensitive) == Meaning(item.children[i], caseSensitive)
      ensures copy.children[i].name == item.children[i].name
    {
      CopyIsTame(item.children[i], caseSensitive);
      CopyMeansSame(item.children[i], caseSensitive);
    }
    ConsistentCopies(item.children, copy.children, caseSensitive);
    ConsistentCopies(copy.children, item.children, caseSensitive);
  }

  lemma ConsistentCopies(a: seq<Item>, b: seq<Item>, caseSensitive: bool)
    requires |a| == |b|
    requires forall i | 0 <= i < |a| ::
               Meaning(a[i], caseSensitive) == Meaning(b[i], caseSensitive) && a[i].name == b[i].name
    ensures Consistent(a, caseSensitive) ==> Consistent(b, caseSensitive)
  {
    hide Meaning, Fold;
    if Consistent(a, caseSensitive) {
      forall i, j | 0 <= i < j < |b| && SameKey(b[i], b[j], caseSensitive)
        ensures Meaning(b[i], caseSensitive) == Meaning(b[j], caseSensitive)
      {
        assert SameKey(a[i], a[j], caseSensitive);
      }
    }
  }

  /** A recursive duplicate compares equal to its source exactly when the source is tame; for a tree
      whose keys are unique and which holds no NaN and no missing text that is always so. */
  lemma DuplicateComparesEqual(item: Item, caseSensitive: bool)
    ensures Compare(item, Copy(item), caseSensitive) <==> Tame(item, caseSensitive)
    ensures Proper(item) && UniqueKeys(item, caseSensitive) ==> Compare(item, Copy(item), caseSensitive)
  {
    hide Compare, Meaning, Tame, Copy, Proper, UniqueKeys;
    CompareDecides(item, Copy(item), caseSensitive);
    CopyMeansSame(item, caseSensitive);
    CopyIsTame(item, caseSensitive);
    if Proper(item) && UniqueKeys(item, caseSensitive) {
      ProperIsTame(item, caseSensitive);
    }
  }

  /** A member that repeats a key with another value makes a tree differ from its own duplicate. */
  lemma RepeatedKeyDiffers()
    ensures var key: CString := [97];
            var x := Item(True, None, Finite(0.0), Some(key), [], false, false);
            var y := Item(Null, None, Finite(0.0), Some(key), [], false, false);
            var tree := Item(Object, None, Finite(0.0), None, [x, y], false, false);
            Proper(tree) && !Compare(tree, Copy(tree), true)
  {
    var key: CString := [97];
    var x := Item(True, None, Finite(0.0), Some(key), [], false, false);
    var y := Item(Null, None, Finite(0.0), Some(key), [], false, false);
    var tree := Item(Object, None, Finite(0.0), None, [x, y], false, false);
    assert SameKey(x, y, true) && Meaning(x, true) != Meaning(y, true);
    RepeatIsNotTame(tree);
    hide Compare, Copy, Members, Tame, Meaning;
    DuplicateComparesEqual(tree, true);
  }

  lemma RepeatIsNotTame(tree: Item)
    requires tree.kind.Object? && |tree.children| == 2 && SameKey(tree.children[0], tree.children[1], true)
    requires Meaning(tree.children[0], true) != Meaning(tree.children[1], true)
    ensures !Tame(tree, true)
  {
    hide Meaning;
  }
}
