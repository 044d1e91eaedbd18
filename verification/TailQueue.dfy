/**
 * The tail queues of `include/queue.h`.  `stqh_last` is the address of the field that holds the
 * terminating NULL: either the head's own `stqh_first` or the `stqe_next` of an element, so it is
 * modelled as a slot.
 */
module TailQueue {
  import opened Sequences
  import opened Chains

  /** The slot that holds the terminating NULL: the head's own slot exactly when there is no element. */
  ghost function EndSlot(s: seq<Elem>, q: TailQ): Slot<TailQ> {
    if s == [] then FirstOf(q) else NextOf(s[|s| - 1])
  }

  lemma EndSlotPair(a: seq<Elem>, v: Elem, w: Elem, b: seq<Elem>, q: TailQ)
    ensures EndSlot(a + ([v, w] + b), q) == if b == [] then NextOf(w) else EndSlot(a + ([v] + b), q)
    ensures b == [] ==> EndSlot(a + ([v] + b), q) == NextOf(v)
  {
  }

  class TailQ {
    var first: Elem?
    var last: Slot<TailQ>
    ghost var elems: seq<Elem>

    ghost predicate Valid()
      reads this, elems
    {
      && Chain(first, elems)
      && last == EndSlot(elems, this)
    }

    /** STAILQ_HEAD_INITIALIZER */
    constructor ()
      ensures Valid() && elems == []
    {
      first := null;
      last := FirstOf(this);
      elems := [];
    }

    /** STAILQ_INIT */
    method Init()
      modifies this
      ensures Valid() && elems == []
    {
      first := null;
      last := FirstOf(this);
      elems := [];
    }

    /** STAILQ_EMPTY */
    predicate Empty()
      reads this
    {
      first == null
    }

    /** STAILQ_LAST: the element that contains the slot `stqh_last` points to. */
    method Last() returns (e: Elem?)
      requires Valid()
      ensures elems == [] ==> e == null
      ensures elems != [] ==> e == elems[|elems| - 1]
    {
      e := if Empty() then null else last.elem;
    }

    /** STAILQ_INSERT_HEAD */
    method InsertHead(elm: Elem)
      requires Valid() && elm !in elems
      modifies this, elm
      ensures Valid() && elems == [elm] + old(elems)
    {
      elm.next := first;
      if elm.next == null {
        last := NextOf(elm);
      }
      first := elm;
      LinkedAppend([elm], elems, null);
      elems := [elm] + elems;
    }

    /** STAILQ_INSERT_TAIL */
    method InsertTail(elm: Elem)
      requires Valid() && elm !in elems
      modifies this, elm, elems
      ensures Valid() && elems == old(elems) + [elm]
    {
      ghost var s := elems;
      LinkedDistinct(s);
      SplitLast(s, null);
      elm.next := null;
      Store(last, elm);
      last := NextOf(elm);
      SplitLast(s, elm);
      LinkedLast(s, elm, null);
      elems := s + [elm];
    }

    /** STAILQ_INSERT_AFTER */
    method InsertAfter(tqelm: Elem, elm: Elem)
      requires Valid() && tqelm in elems && elm !in elems
      modifies this, elm, tqelm
      ensures Valid() && elems == InsertedAfter(old(elems), tqelm, elm)
    {
      LinkedDistinct(elems);
      hide InsertedAfter, Distinct, Apart, Linked, EndSlot;
      ghost var a, b := Cut(elems, tqelm);
      InsertedAfterMiddle(a, tqelm, b, elm);
      LinkedMiddle(a, tqelm, b, null);

      elm.next := tqelm.next;
      if elm.next == null {
        last := NextOf(elm);
      }
      tqelm.next := elm;

      LinkedPair(a, tqelm, elm, b, null);
      EndSlotPair(a, tqelm, elm, b, this);
      elems := a + ([tqelm, elm] + b);
    }

    /** STAILQ_INSERT_CHAIN_HEAD: the chain is linked from its head to its tail. */
    method InsertChainHead(chead: Elem, ctail: Elem, ghost chain: seq<Elem>)
      requires Valid()
      requires chain != [] && chain[0] == chead && chain[|chain| - 1] == ctail
      requires Linked(chain, ctail.next)
      requires Distinct(chain) && Apart(chain, elems)
      modifies this, ctail
      ensures Valid() && elems == chain + old(elems)
    {
      hide Linked;
      assert ctail in chain;
      assert chain[..|chain| - 1] + [ctail] == chain;
      SetNext(ctail, first, chain, ctail.next);
      if ctail.next == null {
        last := NextOf(ctail);
      }
      first := chead;
      LinkedAppend(chain, elems, null);
      elems := chain + elems;
    }

    /** STAILQ_REMOVE_HEAD */
    method RemoveHead()
      requires Valid() && elems != []
      modifies this
      ensures Valid() && elems == old(elems)[1..]
    {
      assert elems == [elems[0]] + elems[1..];
      LinkedAppend([elems[0]], elems[1..], null);
      first := first.next;
      if first == null {
        last := FirstOf(this);
      }
      elems := elems[1..];
    }

    /** STAILQ_REMOVE_AFTER: there must be an element after `elm`. */
    method RemoveAfter(elm: Elem)
      requires Valid() && elm in elems && elm != elems[|elems| - 1]
      modifies this, elm
      ensures Valid() && elems == WithoutNext(old(elems), elm)
    {
      LinkedDistinct(elems);
      ghost var a, x, b := CutPair(elems, elm);
      hide WithoutNext, Distinct, Linked, EndSlot;
      WithoutNextMiddle(a, elm, x, b);
      LinkedPair(a, elm, x, b, null);
      EndSlotPair(a, elm, x, b, this);

      elm.next := elm.next.next;
      if elm.next == null {
        last := NextOf(elm);
      }

      LinkedMiddle(a, elm, b, null);
      elems := a + ([elm] + b);
    }

    /** STAILQ_REMOVE */
    method Remove(elm: Elem)
      requires Valid() && elm in elems
      modifies this, elems
      ensures Valid() && elems == Without(old(elems), elm)
    {
      if first == elm {
        RemoveHead();
      } else {
        hide Linked, Without, EndSlot;
        ghost var a, b := Cut(elems, elm);
        var curelm := first;
        ghost var i := 0;
        while curelm.next != elm
          invariant 0 <= i < |a| && curelm == elems[i]
          decreases |a| - i
          modifies {}
        {
          NextAt(elems, i);
          curelm := curelm.next;
          i := i + 1;
        }
        Predecessor(a, elm, b, i);
        hide WithoutNext;
        RemoveAfter(curelm);
      }
    }

    /** STAILQ_FOREACH */
    method Foreach() returns (visited: seq<Elem>)
      requires Valid()
      ensures visited == elems
    {
      visited := [];
      var v := first;
      while v != null
        invariant |visited| <= |elems| && visited == elems[..|visited|]
        invariant v == Head(elems[|visited|..], null)
        decreases |elems| - |visited|
        modifies {}
      {
        ghost var rest := elems[|visited|..];
        assert elems == visited + rest;
        LinkedAppend(visited, rest, null);
        visited := visited + [v];
        v := v.next;
      }
    }

    /**
     * STAILQ_FOREACH_SAFE with a body that removes the current element when `p` holds: every
     * original element is visited once, in order.
     */
    method RemoveIf(p: Elem -> bool) returns (visited: seq<Elem>)
      requires Valid()
      modifies this, elems
      ensures Valid() && elems == Dropping(old(elems), p)
      ensures visited == old(elems)
    {
      hide Without, Dropping, Linked, Distinct;
      DroppingNothing(p);
      ghost var kept, rest := [], elems;
      visited := [];
      var v := first;
      while v != null
        invariant Valid()
        invariant old(elems) == visited + rest
        invariant elems == kept + rest
        invariant kept == Dropping(visited, p)
        invariant Inside(elems, old(elems))
        invariant v == Head(rest, null)
        decreases |rest|
      {
        ghost var rest' := rest[1..];
        assert rest == [v] + rest';
        AtElement(kept, v, rest');
        InsideCut(kept, v, rest', old(elems));
        var t := v.next;
        DroppingAppend<Elem>(visited, v, p);
        visited := visited + [v];
        if p(v) {
          Remove(v);
        } else {
          assert elems == (kept + [v]) + rest';
          kept := kept + [v];
        }
        rest := rest';
        v := t;
      }
      assert rest == [];
      assert elems == kept && visited == old(elems);
    }
  }

  /** What a `struct type **` points to. */
  ghost function Load(slot: Slot<TailQ>): Elem?
    reads match slot { case FirstOf(h) => {h as object} case NextOf(n) => {n as object} }
  {
    match slot
    case FirstOf(h) => h.first
    case NextOf(n) => n.next
  }

  /**
   * In a valid queue `stqh_last` is the address of the terminating NULL: the head's own field
   * exactly when the queue is empty; no other link of the queue is NULL.
   */
  lemma {:induction false} LastIsTheOnlyNull(q: TailQ)
    requires q.Valid()
    ensures Load(q.last) == null
    ensures q.last == FirstOf(q) <==> q.elems == []
    ensures q.first == null ==> q.last == FirstOf(q)
    ensures forall i :: 0 <= i < |q.elems| && q.elems[i].next == null ==> q.last == NextOf(q.elems[i])
  {
    forall i | 0 <= i < |q.elems|
      ensures q.elems[i].next == null <==> i == |q.elems| - 1
    {
      NextAt(q.elems, i);
    }
  }

  /** An assignment through a `struct type **`. */
  method Store(slot: Slot<TailQ>, e: Elem?)
    modifies match slot { case FirstOf(h) => {h as object} case NextOf(n) => {n as object} }
    ensures slot.FirstOf? ==>
      slot.head.first == e && slot.head.last == old(slot.head.last) && slot.head.elems == old(slot.head.elems)
    ensures slot.NextOf? ==> slot.elem.next == e
  {
    match slot
    case FirstOf(h) => h.first := e;
    case NextOf(n) => n.next := e;
  }

  /**
   * STAILQ_CONCAT.  A queue must not be concatenated with itself: its elements would be left in a
   * ring that no queue holds.
   */
  method Concat(head1: TailQ, head2: TailQ)
    requires head1.Valid() && head2.Valid()
    requires head1 != head2 ==> Apart(head1.elems, head2.elems)
    modifies head1, head2, head1.elems
    ensures head1.Valid() && head2.Valid() && head2.elems == []
    ensures head1 != head2 ==> head1.elems == old(head1.elems) + old(head2.elems)
    ensures head1 == head2 ==>
      var s := old(head1.elems);
      s != [] ==> Linked(s, s[0])
  {
    hide Linked;
    ghost var s, t := head1.elems, head2.elems;
    LinkedDistinct(s);
    SplitLast(s, null);
    if !head2.Empty() {
      assert s != [] ==> s[|s| - 1] in s;
      Store(head1.last, head2.first);
      head1.last := head2.last;
      head1.elems := s + t;
      head2.Init();
      SplitLast(s, t[0]);
      LinkedNothing(null);
      LinkedNothing(t[0]);
      if head1 != head2 {
        LinkedAppend(s, t, null);
      }
    }
  }

  /** STAILQ_SWAP */
  method Swap(head1: TailQ, head2: TailQ)
    requires head1.Valid() && head2.Valid()
    modifies head1, head2
    ensures head1.Valid() && head2.Valid()
    ensures head1.elems == old(head2.elems) && head2.elems == old(head1.elems)
  {
    var swapFirst := head1.first;
    var swapLast := head1.last;
    ghost var swapElems := head1.elems;
    head1.first := head2.first;
    head1.last := head2.last;
    head1.elems := head2.elems;
    head2.first := swapFirst;
    head2.last := swapLast;
    head2.elems := swapElems;
    if head1.Empty() {
      head1.last := FirstOf(head1);
    }
    if head2.Empty() {
      head2.last := FirstOf(head2);
    }
  }
}
