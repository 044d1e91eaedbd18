/** NULL-terminated chains of elements, as the singly-linked queues of `include/queue.h` build them. */
module Chains {
  import opened Sequences

  class Elem {
    var next: Elem?

    constructor ()
      ensures next == null
    {
      next := null;
    }
  }

  /** `struct type **`: the address of the link in a head, or of the one in an element. */
  datatype Slot<H> = FirstOf(head: H) | NextOf(elem: Elem)

  /** The first element of `s`, or `end` when there is none. */
  ghost function Head(s: seq<Elem>, end: Elem?): Elem? {
    if s == [] then end else s[0]
  }

  /** Each element of `s` points to the one after it, and the last one to `end`. */
  ghost predicate Linked(s: seq<Elem>, end: Elem?)
    reads s
  {
    s != [] ==> s[0].next == Head(s[1..], end) && Linked(s[1..], end)
  }

  /** Following `next` from `first` runs through `s` and ends at NULL. */
  ghost predicate Chain(first: Elem?, s: seq<Elem>)
    reads s
  {
    first == Head(s, null) && Linked(s, null)
  }

  /** Chains are cut and joined where one part points to the next. */
  lemma {:induction false} LinkedAppend(a: seq<Elem>, b: seq<Elem>, end: Elem?)
    ensures Linked(a + b, end) <==> Linked(a, Head(b, end)) && Linked(b, end)
    decreases |a|
  {
    if a == [] {
      assert a + b == b;
    } else {
      assert (a + b)[1..] == a[1..] + b;
      LinkedAppend(a[1..], b, end);
    }
  }

  lemma LinkedNothing(end: Elem?)
    ensures Linked([], end)
  {
  }

  lemma {:induction false} LinkedCons(e: Elem, b: seq<Elem>, end: Elem?)
    ensures Linked([e] + b, end) <==> e.next == Head(b, end) && Linked(b, end)
  {
    assert ([e] + b)[1..] == b;
  }

  lemma {:induction false} LinkedMiddle(a: seq<Elem>, e: Elem, b: seq<Elem>, end: Elem?)
    ensures Linked(a + ([e] + b), end) <==> Linked(a, e) && e.next == Head(b, end) && Linked(b, end)
  {
    LinkedAppend(a, [e] + b, end);
    LinkedCons(e, b, end);
  }

  lemma {:induction false} LinkedPair(a: seq<Elem>, v: Elem, w: Elem, b: seq<Elem>, end: Elem?)
    ensures Linked(a + ([v, w] + b), end) <==>
      Linked(a, v) && v.next == w && w.next == Head(b, end) && Linked(b, end)
  {
    assert [v, w] + b == [v] + ([w] + b);
    LinkedMiddle(a, v, [w] + b, end);
    LinkedCons(w, b, end);
  }

  /** The last element of a chain decides where it ends. */
  lemma {:induction false} LinkedLast(a: seq<Elem>, z: Elem, end: Elem?)
    ensures Linked(a + [z], end) <==> Linked(a, z) && z.next == end
  {
    LinkedAppend(a, [z], end);
    assert [z][1..] == [];
  }

  lemma {:induction false} SplitLast(s: seq<Elem>, end: Elem?)
    ensures s != [] ==>
      (Linked(s, end) <==> Linked(s[..|s| - 1], s[|s| - 1]) && s[|s| - 1].next == end)
  {
    if s != [] {
      assert s == s[..|s| - 1] + [s[|s| - 1]];
      LinkedLast(s[..|s| - 1], s[|s| - 1], end);
    }
  }

  /** What a loop over a chain finds at the element `v` between `a` and `b`. */
  lemma {:induction false} AtElement(a: seq<Elem>, v: Elem, b: seq<Elem>)
    requires Linked(a + ([v] + b), null)
    ensures v.next == Head(b, null)
    ensures v in a + ([v] + b)
    ensures Without(a + ([v] + b), v) == a + b
  {
    var s := a + ([v] + b);
    LinkedDistinct(s);
    LinkedAppend(a, [v] + b, null);
    LinkedCons(v, b, null);
    assert v !in a by {
      assert s[|a|] == v && forall i :: 0 <= i < |a| ==> s[i] == a[i];
    }
    hide Linked, Without;
    WithoutMiddle(a, v, b);
  }

  /** Only the element right before `e` points to it. */
  lemma {:induction false} PointsBefore(a: seq<Elem>, e: Elem, b: seq<Elem>, i: nat)
    requires Linked(a + ([e] + b), null) && i < |a| && a[i].next == e
    ensures i == |a| - 1 && a[i] !in a[..i]
  {
    var s := a + ([e] + b);
    LinkedDistinct(s);
    NextAt(s, i);
    hide Linked;
    assert s[|a|] == e;
    assert forall j :: 0 <= j < |a| ==> s[j] == a[j];
  }

  /** Removing what follows the element that points to `e` is removing `e`. */
  lemma {:induction false} Predecessor(a: seq<Elem>, e: Elem, b: seq<Elem>, i: nat)
    requires Linked(a + ([e] + b), null) && e !in a
    requires i < |a| && a[i].next == e
    ensures var s := a + ([e] + b);
      a[i] in s && a[i] != s[|s| - 1] && WithoutNext(s, a[i]) == Without(s, e)
  {
    var s, pre, v := a + ([e] + b), a[..i], a[i];
    PointsBefore(a, e, b, i);
    LinkedDistinct(s);
    assert s[i] == v;
    hide Linked, Without, WithoutNext, Distinct;
    WithoutMiddle(a, e, b);
    assert a == pre + [v];
    assert s == pre + ([v, e] + b);
    WithoutNextMiddle(pre, v, e, b);
    assert pre + ([v] + b) == a + b;
    assert v != s[|s| - 1] by {
      LinkedDistinct(s);
      NotLast(s, i);
    }
  }

  lemma {:induction false} NotLast(s: seq<Elem>, i: nat)
    requires Linked(s, null) && i + 1 < |s|
    ensures s[i] != s[|s| - 1]
  {
    LinkedDistinct(s);
  }

  /** An assignment to STAILQ_NEXT of the last element of a chain moves the end of the chain. */
  method SetNext(z: Elem, x: Elem?, ghost s: seq<Elem>, ghost end: Elem?)
    requires s != [] && s[|s| - 1] == z && z !in s[..|s| - 1]
    requires Linked(s, end)
    modifies z
    ensures z.next == x && Linked(s, x)
  {
    SplitLast(s, end);
    z.next := x;
    SplitLast(s, x);
  }

  lemma {:induction false} NextAt(s: seq<Elem>, i: nat)
    requires i < |s| && Linked(s, null)
    ensures s[i].next == if i + 1 < |s| then s[i + 1] else null
  {
    assert s == s[..i] + s[i..];
    LinkedAppend(s[..i], s[i..], null);
  }

  /** The heap determines the sequence that a chain represents. */
  lemma {:induction false} ChainUnique(first: Elem?, s: seq<Elem>, t: seq<Elem>)
    requires Chain(first, s) && Chain(first, t)
    ensures s == t
    decreases |s|
  {
    if s != [] {
      ChainUnique(s[0].next, s[1..], t[1..]);
      assert s == [s[0]] + s[1..] && t == [t[0]] + t[1..];
    }
  }

  /** The rest of a chain is a chain. */
  lemma {:induction false} LinkedDrop(s: seq<Elem>, i: nat)
    requires Linked(s, null) && i <= |s|
    ensures Linked(s[i..], null)
  {
    assert s == s[..i] + s[i..];
    LinkedAppend(s[..i], s[i..], null);
  }

  /** A NULL-terminated chain has no cycle. */
  lemma {:induction false} LinkedDistinct(s: seq<Elem>)
    requires Linked(s, null)
    ensures Distinct(s)
  {
    hide Linked;
    forall i, j | 0 <= i < j < |s| ensures s[i] != s[j] {
      if s[i] == s[j] {
        LinkedDrop(s, i);
        LinkedDrop(s, j);
        ChainUnique(s[i], s[i..], s[j..]);
      }
    }
  }
}
