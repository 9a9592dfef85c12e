/** The intrusive circular doubly linked list (h/util/LinkedList.h). */
module LinkedList {
  /** A list link together with the payload of the structure it is embedded in; heads carry none. */
  class Element<T(0)> {
    var next: Element?<T>
    var prev: Element?<T>
    var value: T

    constructor (value: T)
      ensures this.value == value
    {
      this.value := value;
    }
  }

  ghost function Succ<T(0)>(r: seq<Element<T>>, i: nat): Element<T>
    requires i < |r|
  {
    if i + 1 < |r| then r[i + 1] else r[0]
  }

  ghost function Pred<T(0)>(r: seq<Element<T>>, i: nat): Element<T>
    requires i < |r|
  {
    if i > 0 then r[i - 1] else r[|r| - 1]
  }

  ghost predicate LinkedAt<T(0)>(r: seq<Element<T>>, i: nat)
    requires i < |r|
    reads r`next, r`prev
  {
    r[i].next == Succ(r, i) && r[i].prev == Pred(r, i)
  }

  ghost predicate Distinct<T(0)>(r: seq<Element<T>>) {
    forall i, j :: 0 <= i < j < |r| ==> r[i] != r[j]
  }

  /** The two rings share no element. */
  ghost predicate Apart<T(0)>(f: seq<Element<T>>, t: seq<Element<T>>) {
    forall i, j :: 0 <= i < |f| && 0 <= j < |t| ==> f[i] != t[j]
  }

  /** r is a well-formed list: its head, then its elements in order, linked into a circle both ways. */
  ghost predicate Ring<T(0)>(r: seq<Element<T>>)
    reads r`next, r`prev
  {
    |r| > 0 && Distinct(r) && forall i :: 0 <= i < |r| ==> LinkedAt(r, i)
  }

  method ListHeadInit<T(0)>(head: Element<T>)
    modifies head`next, head`prev
    ensures Ring([head])
  {
    head.next := head;
    head.prev := head;
  }

  method ListEmpty<T(0)>(head: Element<T>, ghost r: seq<Element<T>>) returns (empty: bool)
    requires Ring(r) && r[0] == head
    ensures empty <==> r == [head]
  {
    assert LinkedAt(r, 0);
    empty := head.next == head;
    if |r| == 1 {
      assert r == [head];
    } else {
      assert r[1] != r[0];
    }
  }

  /** r with one more element behind position k. */
  ghost function Inserted<T(0)>(r: seq<Element<T>>, k: nat, element: Element<T>): (s: seq<Element<T>>)
    requires k < |r|
    ensures |s| == |r| + 1
    ensures forall i :: 0 <= i < |s| ==> s[i] == if i <= k then r[i] else if i == k + 1 then element else r[i - 1]
  {
    r[..k + 1] + [element] + r[k + 1..]
  }

  /** r without the element at position k. */
  ghost function Removed<T(0)>(r: seq<Element<T>>, k: nat): (s: seq<Element<T>>)
    requires k < |r|
    ensures |s| == |r| - 1
    ensures forall i :: 0 <= i < |s| ==> s[i] == if i < k then r[i] else r[i + 1]
  {
    r[..k] + r[k + 1..]
  }

  /** __listAdd: links a new element in between two neighbours, behind position k of the ring. */
  method Link<T(0)>(element: Element<T>, prev: Element<T>, next: Element<T>, ghost r: seq<Element<T>>, ghost k: nat)
    requires Ring(r) && k < |r| && element !in r && prev == r[k] && next == Succ(r, k)
    modifies element`next, element`prev, prev`next, next`prev
    ensures Ring(Inserted(r, k, element))
  {
    next.prev := element;
    element.next := next;
    element.prev := prev;
    prev.next := element;
    ghost var s := Inserted(r, k, element);
    forall i | 0 <= i < |s| ensures LinkedAt(s, i) {
      assert old(LinkedAt(r, if i <= k then i else if i == k + 1 then k else i - 1));
    }
  }

  method ListAdd<T(0)>(element: Element<T>, head: Element<T>, ghost r: seq<Element<T>>)
    requires Ring(r) && r[0] == head && element !in r
    modifies element`next, element`prev, head`next, Succ(r, 0)`prev
    ensures Ring(Inserted(r, 0, element))
  {
    assert LinkedAt(r, 0);
    Link(element, head, head.next, r, 0);
  }

  method ListAddTail<T(0)>(element: Element<T>, head: Element<T>, ghost r: seq<Element<T>>)
    requires Ring(r) && r[0] == head && element !in r
    modifies element`next, element`prev, head`prev, Pred(r, 0)`next
    ensures Ring(r + [element])
  {
    assert LinkedAt(r, 0) && LinkedAt(r, |r| - 1);
    Link(element, head.prev, head, r, |r| - 1);
    assert Inserted(r, |r| - 1, element) == r + [element];
  }

  /** Unlinks the element at position k of the ring and poisons its own links. */
  method ListDel<T(0)>(element: Element<T>, ghost r: seq<Element<T>>, ghost k: nat)
    requires Ring(r) && 0 < k < |r| && element == r[k]
    modifies element`next, element`prev, Succ(r, k)`prev, Pred(r, k)`next
    ensures Ring(Removed(r, k)) && element.next == null && element.prev == null
  {
    assert LinkedAt(r, k);
    element.next.prev := element.prev;
    element.prev.next := element.next;
    element.next := null;
    element.prev := null;
    ghost var s := Removed(r, k);
    forall i | 0 <= i < |s| ensures LinkedAt(s, i) {
      assert old(LinkedAt(r, if i < k then i else i + 1));
    }
  }

  /** __listJoin: splices the elements of ring f, without its head, behind position k of ring t. */
  method Splice<T(0)>(from: Element<T>, prev: Element<T>, next: Element<T>,
                      ghost f: seq<Element<T>>, ghost t: seq<Element<T>>, ghost k: nat)
    requires Ring(f) && Ring(t) && |f| > 1 && f[0] == from && k < |t|
    requires Apart(f, t)
    requires prev == t[k] && next == Succ(t, k)
    modifies Succ(f, 0)`prev, Pred(f, 0)`next, prev`next, next`prev
    ensures Ring(Joined(f, t, k))
  {
    assert LinkedAt(f, 0);
    var first, last := from.next, from.prev;
    assert first == f[1] && last == f[|f| - 1];
    first.prev := prev;
    prev.next := first;
    last.next := next;
    next.prev := last;
    ghost var s := Joined(f, t, k);
    JoinedDistinct(f, t, k);
    forall i | 0 <= i < |s| ensures LinkedAt(s, i) {
      if i <= k {
        assert old(LinkedAt(t, i));
      } else if i < k + |f| {
        assert old(LinkedAt(f, i - k));
      } else {
        assert old(LinkedAt(t, i - |f| + 1));
      }
    }
  }

  ghost function Joined<T(0)>(f: seq<Element<T>>, t: seq<Element<T>>, k: nat): (s: seq<Element<T>>)
    requires |f| > 0 && k < |t|
    ensures |s| == |t| + |f| - 1
    ensures forall i :: 0 <= i < |s| ==>
              s[i] == if i <= k then t[i] else if i < k + |f| then f[i - k] else t[i - |f| + 1]
  {
    t[..k + 1] + f[1..] + t[k + 1..]
  }

  lemma JoinedDistinct<T(0)>(f: seq<Element<T>>, t: seq<Element<T>>, k: nat)
    requires |f| > 0 && k < |t| && Distinct(f) && Distinct(t) && Apart(f, t)
    ensures Distinct(Joined(f, t, k))
  {
  }

  /** Moves a whole list in front of another one, in order, and leaves the source empty. */
  method ListJoinInit<T(0)>(from: Element<T>, to: Element<T>, ghost f: seq<Element<T>>, ghost t: seq<Element<T>>)
    requires Ring(f) && Ring(t) && f[0] == from && t[0] == to
    requires Apart(f, t)
    modifies from`next, from`prev, Succ(f, 0)`prev, Pred(f, 0)`next, to`next, Succ(t, 0)`prev
    ensures Ring([to] + f[1..] + t[1..]) && Ring([from])
  {
    assert LinkedAt(t, 0);
    var empty := ListEmpty(from, f);
    assert Joined(f, t, 0) == [to] + f[1..] + t[1..];
    if !empty {
      Splice(from, to, to.next, f, t, 0);
      InitSource(from, Joined(f, t, 0));
    } else {
      assert Joined(f, t, 0) == t;
    }
  }

  /** Moves a whole list behind another one, in order, and leaves the source empty. */
  method ListJoinTailInit<T(0)>(from: Element<T>, to: Element<T>, ghost f: seq<Element<T>>, ghost t: seq<Element<T>>)
    requires Ring(f) && Ring(t) && f[0] == from && t[0] == to
    requires Apart(f, t)
    modifies from`next, from`prev, Succ(f, 0)`prev, Pred(f, 0)`next, to`prev, Pred(t, 0)`next
    ensures Ring(t + f[1..]) && Ring([from])
  {
    assert LinkedAt(t, 0) && LinkedAt(t, |t| - 1);
    var empty := ListEmpty(from, f);
    assert Joined(f, t, |t| - 1) == t + f[1..];
    if !empty {
      Splice(from, to.prev, to, f, t, |t| - 1);
      InitSource(from, Joined(f, t, |t| - 1));
    } else {
      assert Joined(f, t, |t| - 1) == t;
    }
  }

  /** Emptying the source's head does not touch the ring its elements are in now. */
  method InitSource<T(0)>(from: Element<T>, ghost joined: seq<Element<T>>)
    requires Ring(joined) && from !in joined
    modifies from`next, from`prev
    ensures Ring(joined) && Ring([from])
  {
    ListHeadInit(from);
    forall i | 0 <= i < |joined| ensures LinkedAt(joined, i) {
      assert old(LinkedAt(joined, i));
    }
  }
}
