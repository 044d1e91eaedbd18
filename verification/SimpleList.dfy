/** The singly-linked lists (SLIST) of `include/queue.h`. */
module SimpleList {
  import opened Sequences
  import opened Chains

  lemma {:induction false} DropsNothing(s: seq<Elem>, p: Elem -> bool)
    requires forall e <- s :: !p(e)
    ensures WithoutFirst(s, p) == s
  {
    if s != [] {
      DropsNothing(s[1..], p);
    }
  }

  class List {
    var first: Elem?
    ghost var elems: seq<Elem>

    ghost predicate Valid()
      reads this, elems
    {
      Chain(first, elems)
    }

    /** SLIST_HEAD_INITIALIZER */
    constructor ()
      ensures Valid() && elems == []
    {
      first := null;
      elems := [];
    }

    /** SLIST_INIT */
    method Init()
      modifies this
      ensures Valid() && elems == []
    {
      first := null;
      elems := [];
    }

    /** SLIST_INSERT_HEAD */
    method InsertHead(elm: Elem)
      requires Valid() && elm !in elems
      modifies this, elm
      ensures Valid() && elems == [elm] + old(elems)
    {
      elm.next := first;
      first := elm;
      LinkedCons(elm, elems, null);
      elems := [elm] + elems;
    }

    /** SLIST_INSERT_AFTER */
    method InsertAfter(slistelm: Elem, elm: Elem)
      requires Valid() && slistelm in elems && elm !in elems
      modifies this`elems, elm, slistelm
      ensures Valid() && elems == InsertedAfter(old(elems), slistelm, elm)
    {
      LinkedDistinct(elems);
      hide InsertedAfter, Distinct, Apart, Linked;
      ghost var a, b := Cut(elems, slistelm);
      InsertedAfterMiddle(a, slistelm, b, elm);
      LinkedMiddle(a, slistelm, b, null);
      elm.next := slistelm.next;
      slistelm.next := elm;
      LinkedPair(a, slistelm, elm, b, null);
      elems := a + ([slistelm, elm] + b);
    }

    /** SLIST_REMOVE_HEAD */
    method RemoveHead()
      requires Valid() && elems != []
      modifies this
      ensures Valid() && elems == old(elems)[1..]
    {
      first := first.next;
      elems := elems[1..];
    }

    /** SLIST_REMOVE_AFTER: there must be an element after `elm`. */
    method RemoveAfter(elm: Elem)
      requires Valid() && elm in elems && elm != elems[|elems| - 1]
      modifies this`elems, elm
      ensures Valid() && elems == WithoutNext(old(elems), elm)
    {
      LinkedDistinct(elems);
      ghost var a, x, b := CutPair(elems, elm);
      hide WithoutNext, Distinct, Linked;
      WithoutNextMiddle(a, elm, x, b);
      LinkedPair(a, elm, x, b, null);
      elm.next := elm.next.next;
      LinkedMiddle(a, elm, b, null);
      elems := a + ([elm] + b);
    }

    /** SLIST_REMOVE */
    method Remove(elm: Elem)
      requires Valid() && elm in elems
      modifies this, elems
      ensures Valid() && elems == Without(old(elems), elm)
    {
      if first == elm {
        RemoveHead();
      } else {
        hide Linked, Without;
        ghost var a, b := Cut(elems, elm);
        var curelm := first;
        ghost var i := 0;
        while curelm.next != elm
          invariant 0 <= i < |a| && curelm == elems[i]
          decreases |a| - i
          modifies {}
        {
          NextAt(elems, i);
          curelm := curelm.next;
          i := i + 1;
        }
        Predecessor(a, elm, b, i);
        hide WithoutNext;
        RemoveAfter(curelm);
      }
    }

    /**
     * SLIST_FOREACH_PREVPTR with a body that unlinks the first element satisfying `p` through the
     * address of the link before it: the head needs no case of its own.
     */
    method UnlinkFirst(p: Elem -> bool) returns (found: Elem?)
      requires Valid()
      modifies this, elems
      ensures Valid()
      ensures elems == WithoutFirst(old(elems), p)
      ensures found == null ==> forall e <- old(elems) :: !p(e)
      ensures found != null ==> found in old(elems) && p(found) && elems == Without<Elem>(old(elems), found)
      ensures found != null ==>
        forall i :: 0 <= i < |old(elems)| && p(old(elems)[i]) ==> found in old(elems)[..i + 1]
    {
      hide Linked, Without, Distinct, WithoutFirst;
      ghost var pre: seq<Elem>, rest: seq<Elem> := [], elems;
      var varp := FirstOf(this);
      found := Load(varp);
      while found != null
        invariant elems == old(elems) == pre + rest
        invariant varp == if pre == [] then FirstOf(this) else NextOf(pre[|pre| - 1])
        invariant found == Head(rest, null) == Load(varp)
        invariant Valid()
        invariant forall e <- pre :: !p(e)
        decreases |rest|
        modifies {}
      {
        ghost var v, b := found, rest[1..];
        assert rest == [v] + b;
        AtElement(pre, v, b);
        if p(found) {
          break;
        }
        varp := NextOf(found);
        found := Load(varp);
        assert pre + rest == (pre + [v]) + b;
        pre, rest := pre + [v], b;
      }
      if found != null {
        ghost var v, b := found, rest[1..];
        assert rest == [v] + b;
        AtElement(pre, v, b);
        WithoutFirstMiddle<Elem>(pre, v, b, p);
        FirstMatch<Elem>(pre, v, b, p);
        Unlink(varp, found, pre, b);
      } else {
        assert rest == [] && elems == pre;
        DropsNothing(pre, p);
      }
    }

    /** `*varp = SLIST_NEXT(var)` */
    method Unlink(varp: Slot<List>, v: Elem, ghost pre: seq<Elem>, ghost b: seq<Elem>)
      requires Valid() && elems == pre + ([v] + b)
      requires varp == if pre == [] then FirstOf(this) else NextOf(pre[|pre| - 1])
      modifies this, elems
      ensures Valid() && elems == pre + b
    {
      LinkedDistinct(elems);
      assert forall i :: 0 <= i < |pre| ==> elems[i] == pre[i];
      assert forall i :: 0 <= i < |b| ==> elems[|pre| + 1 + i] == b[i];
      assert forall i, j :: 0 <= i < j < |pre| ==> pre[i] != pre[j];
      assert pre != [] ==> pre[|pre| - 1] !in b;
      hide Linked, Distinct;
      LinkedMiddle(pre, v, b, null);
      SplitLast(pre, v);
      Store(varp, v.next);
      SplitLast(pre, Head(b, null));
      if pre == [] {
        LinkedNothing(Head(b, null));
      }
      LinkedAppend(pre, b, null);
      elems := pre + b;
    }
  }

  /** What a `struct type **` points to. */
  function Load(slot: Slot<List>): Elem?
    reads match slot { case FirstOf(h) => {h as object} case NextOf(n) => {n as object} }
  {
    match slot
    case FirstOf(h) => h.first
    case NextOf(n) => n.next
  }

  method Store(slot: Slot<List>, e: Elem?)
    modifies match slot { case FirstOf(h) => {h as object} case NextOf(n) => {n as object} }
    ensures slot.FirstOf? ==> slot.head.first == e && slot.head.elems == old(slot.head.elems)
    ensures slot.NextOf? ==> slot.elem.next == e
  {
    match slot
    case FirstOf(h) => h.first := e;
    case NextOf(n) => n.next := e;
  }
}
