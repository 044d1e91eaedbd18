/** Runs of tail queue operations on any number of queues that share a pool of elements. */
module TailQueueRuns {
  import opened Sequences
  import opened Chains
  import opened TailQueue

  /** One use of a STAILQ macro; queues are given by their index. */
  datatype Op =
    | Init(q: nat)
    | InsertHead(q: nat, e: Elem)
    | InsertTail(q: nat, e: Elem)
    | InsertAfter(q: nat, x: Elem, e: Elem)
    | InsertChainHead(q: nat, chain: seq<Elem>)
    | RemoveHead(q: nat)
    | RemoveAfter(q: nat, x: Elem)
    | Remove(q: nat, e: Elem)
    | RemoveIf(q: nat, p: Elem -> bool)
    | Concat(q: nat, q2: nat)
    | Swap(q: nat, q2: nat)

  type State = seq<seq<Elem>>

  /** An element of the pool that no queue holds. */
  ghost predicate Free(st: State, e: Elem) {
    forall s <- st :: e !in s
  }

  /** What the macros demand of their arguments. */
  ghost predicate Legal(st: State, pool: set<Elem>, op: Op) {
    && op.q < |st|
    && match op
       case Init(_) => true
       case InsertHead(_, e) => e in pool && Free(st, e)
       case InsertTail(_, e) => e in pool && Free(st, e)
       case InsertAfter(q, x, e) => x in st[q] && e in pool && Free(st, e)
       case InsertChainHead(_, chain) =>
         chain != [] && Distinct(chain) && forall e <- chain :: e in pool && Free(st, e)
       case RemoveHead(q) => st[q] != []
       case RemoveAfter(q, x) => x in st[q] && x != st[q][|st[q]| - 1]
       case Remove(q, e) => e in st[q]
       case RemoveIf(_, _) => true
       case Concat(_, q2) => q2 < |st|
       case Swap(_, q2) => q2 < |st|
  }

  /** What the macros do to the sequences. */
  ghost function Apply(st: State, pool: set<Elem>, op: Op): (r: State)
    requires Legal(st, pool, op)
    ensures |r| == |st|
  {
    match op
    case Init(q) => st[q := []]
    case InsertHead(q, e) => st[q := [e] + st[q]]
    case InsertTail(q, e) => st[q := st[q] + [e]]
    case InsertAfter(q, x, e) => st[q := InsertedAfter(st[q], x, e)]
    case InsertChainHead(q, chain) => st[q := chain + st[q]]
    case RemoveHead(q) => st[q := st[q][1..]]
    case RemoveAfter(q, x) => st[q := WithoutNext(st[q], x)]
    case Remove(q, e) => st[q := Without(st[q], e)]
    case RemoveIf(q, p) => st[q := Dropping<Elem>(st[q], p)]
    case Concat(q, q2) => if q == q2 then st[q := []] else st[q := st[q] + st[q2]][q2 := []]
    case Swap(q, q2) => st[q := st[q2]][q2 := st[q]]
  }

  ghost predicate LegalRun(st: State, pool: set<Elem>, ops: seq<Op>)
    decreases |ops|
  {
    ops != [] ==> Legal(st, pool, ops[0]) && LegalRun(Apply(st, pool, ops[0]), pool, ops[1..])
  }

  ghost function ApplyAll(st: State, pool: set<Elem>, ops: seq<Op>): (r: State)
    requires LegalRun(st, pool, ops)
    ensures |r| == |st|
    decreases |ops|
  {
    if ops == [] then st else ApplyAll(Apply(st, pool, ops[0]), pool, ops[1..])
  }

  /** No element is in two queues, and all of them come from the pool. */
  ghost predicate Separate(st: State, pool: set<Elem>) {
    && (forall i, j :: 0 <= i < j < |st| ==> Apart(st[i], st[j]))
    && (forall i, e :: 0 <= i < |st| && e in st[i] ==> e in pool)
  }

  // ----- the sequences stay separate ---------------------------------------------------------

  /** Replacing one sequence keeps the others apart when it only gains free elements. */
  lemma {:induction false} SeparateUpdate(st: State, pool: set<Elem>, q: nat, s: seq<Elem>)
    requires Separate(st, pool) && q < |st|
    requires forall e <- s :: e in st[q] || (e in pool && Free(st, e))
    ensures Separate(st[q := s], pool)
  {
    var r := st[q := s];
    forall i, j | 0 <= i < j < |r| ensures Apart(r[i], r[j]) {
      assert Apart(st[i], st[j]);
      assert st[i] in st && st[j] in st;
      assert forall k :: 0 <= k < |s| ==> s[k] in s;
    }
  }

  lemma {:induction false} InsertedMembers(s: seq<Elem>, x: Elem, e: Elem)
    ensures forall d <- InsertedAfter(s, x, e) :: d in s || d == e
  {
    if s != [] {
      InsertedMembers(s[1..], x, e);
    }
  }

  lemma {:induction false} WithoutMembers(s: seq<Elem>, e: Elem)
    ensures forall d <- Without(s, e) :: d in s
  {
    if s != [] {
      WithoutMembers(s[1..], e);
    }
  }

  lemma {:induction false} WithoutNextMembers(s: seq<Elem>, x: Elem)
    ensures forall d <- WithoutNext(s, x) :: d in s
  {
    if |s| >= 2 {
      WithoutNextMembers(s[1..], x);
    }
  }

  lemma {:induction false} DroppedMembers(s: seq<Elem>, p: Elem -> bool)
    ensures forall d <- Dropping(s, p) :: d in s
  {
    if s != [] {
      DroppedMembers(s[1..], p);
    }
  }

  lemma {:induction false} SeparateConcat(st: State, pool: set<Elem>, q: nat, q2: nat)
    requires Separate(st, pool) && q < |st| && q2 < |st| && q != q2
    ensures Separate(st[q := st[q] + st[q2]][q2 := []], pool)
    ensures Separate(st[q := st[q2]][q2 := st[q]], pool)
  {
    var r := st[q := st[q] + st[q2]][q2 := []];
    forall i, j | 0 <= i < j < |r| ensures Apart(r[i], r[j]) {
      ApartPair(st, pool, i, j);
      ApartPair(st, pool, q, j);
      ApartPair(st, pool, q2, j);
      ApartPair(st, pool, i, q);
      ApartPair(st, pool, i, q2);
    }
    var t := st[q := st[q2]][q2 := st[q]];
    forall i, j | 0 <= i < j < |t| ensures Apart(t[i], t[j]) {
      ApartPair(st, pool, if i == q then q2 else if i == q2 then q else i,
                if j == q then q2 else if j == q2 then q else j);
    }
  }

  lemma {:induction false} ApartPair(st: State, pool: set<Elem>, i: nat, j: nat)
    requires Separate(st, pool) && i < |st| && j < |st|
    ensures i != j ==> Apart(st[i], st[j])
  {
    if i > j {
      assert Apart(st[j], st[i]);
    }
  }

  /** Every legal operation keeps the queues separate. */
  lemma {:induction false} ApplySeparate(st: State, pool: set<Elem>, op: Op)
    requires Separate(st, pool) && Legal(st, pool, op)
    ensures Separate(Apply(st, pool, op), pool)
  {
    hide Separate, InsertedAfter, Without, WithoutNext, Dropping;
    match op
    case Init(q) => SeparateUpdate(st, pool, q, []);
    case InsertHead(q, e) => SeparateUpdate(st, pool, q, [e] + st[q]);
    case InsertTail(q, e) => SeparateUpdate(st, pool, q, st[q] + [e]);
    case InsertAfter(q, x, e) =>
      InsertedMembers(st[q], x, e);
      SeparateUpdate(st, pool, q, InsertedAfter(st[q], x, e));
    case InsertChainHead(q, chain) => SeparateUpdate(st, pool, q, chain + st[q]);
    case RemoveHead(q) => SeparateUpdate(st, pool, q, st[q][1..]);
    case RemoveAfter(q, x) =>
      WithoutNextMembers(st[q], x);
      SeparateUpdate(st, pool, q, WithoutNext(st[q], x));
    case Remove(q, e) =>
      WithoutMembers(st[q], e);
      SeparateUpdate(st, pool, q, Without(st[q], e));
    case RemoveIf(q, p) =>
      DroppedMembers(st[q], p);
      SeparateUpdate(st, pool, q, Dropping<Elem>(st[q], p));
    case Concat(q, q2) =>
      if q == q2 {
        SeparateUpdate(st, pool, q, []);
      } else {
        SeparateConcat(st, pool, q, q2);
      }
    case Swap(q, q2) =>
      if q == q2 {
        assert st[q := st[q2]][q2 := st[q]] == st;
      } else {
        SeparateConcat(st, pool, q, q2);
      }
  }

  // ----- the heap follows -----------------------------------------------------------------------

  lemma {:induction false} ApartFromOthers(st: State, pool: set<Elem>, q: nat)
    requires Separate(st, pool) && q < |st|
    ensures forall j :: 0 <= j < |st| && j != q ==> Apart(st[q], st[j])
    ensures forall j, e :: 0 <= j < |st| && Free(st, e) ==> e !in st[j]
  {
    forall j | 0 <= j < |st| && j != q ensures Apart(st[q], st[j]) {
      ApartPair(st, pool, q, j);
    }
    assert forall j :: 0 <= j < |st| ==> st[j] in st;
  }

  /** Any number of tail queues over one pool of elements. */
  class World {
    const queues: seq<TailQ>
    const pool: set<Elem>

    ghost function Abs(): (st: State)
      reads queues
      ensures |st| == |queues|
      ensures forall i :: 0 <= i < |queues| ==> st[i] == queues[i].elems
    {
      seq(|queues|, i requires 0 <= i < |queues| reads queues => queues[i].elems)
    }

    /** Each queue represents its sequence. */
    ghost predicate Represents(st: State)
      reads queues, pool
    {
      && |st| == |queues|
      && forall i :: 0 <= i < |queues| ==>
        queues[i].elems == st[i] && (forall e <- queues[i].elems :: e in pool) && queues[i].Valid()
    }

    ghost predicate Valid()
      reads queues, pool
    {
      Distinct(queues) && Separate(Abs(), pool) && Represents(Abs())
    }

    constructor (queues: seq<TailQ>, pool: set<Elem>)
      requires Distinct(queues)
      requires forall q <- queues :: q.Valid() && q.elems == []
      ensures this.queues == queues && this.pool == pool
      ensures Valid()
    {
      this.queues := queues;
      this.pool := pool;
    }

    method DoInit(q: nat, ghost st: State)
      requires Distinct(queues) && Represents(st) && q < |st|
      modifies queues
      ensures Represents(st[q := []])
    {
      hide Linked, EndSlot;
      queues[q].Init();
    }

    method DoInsertHead(q: nat, e: Elem, ghost st: State)
      requires Distinct(queues) && Represents(st) && Separate(st, pool) && Legal(st, pool, InsertHead(q, e))
      modifies queues, pool
      ensures Represents(st[q := [e] + st[q]])
    {
      hide Linked, Separate, EndSlot;
      ApartFromOthers(st, pool, q);
      queues[q].InsertHead(e);
    }

    method DoInsertTail(q: nat, e: Elem, ghost st: State)
      requires Distinct(queues) && Represents(st) && Separate(st, pool) && Legal(st, pool, InsertTail(q, e))
      modifies queues, pool
      ensures Represents(st[q := st[q] + [e]])
    {
      hide Linked, Separate, EndSlot;
      ApartFromOthers(st, pool, q);
      queues[q].InsertTail(e);
    }

    method DoInsertAfter(q: nat, x: Elem, e: Elem, ghost st: State)
      requires Distinct(queues) && Represents(st) && Separate(st, pool) && Legal(st, pool, InsertAfter(q, x, e))
      modifies queues, pool
      ensures Represents(st[q := InsertedAfter(st[q], x, e)])
    {
      hide Linked, Separate, EndSlot, InsertedAfter;
      ApartFromOthers(st, pool, q);
      InsertedMembers(st[q], x, e);
      queues[q].InsertAfter(x, e);
    }

    /** The caller links a chain of free elements before it inserts it. */
    method LinkChain(chain: seq<Elem>, ghost st: State)
      requires Represents(st)
      requires chain != [] && Distinct(chain) && forall e <- chain :: e in pool && Free(st, e)
      modifies pool
      ensures Represents(st)
      ensures Linked(chain, chain[|chain| - 1].next)
    {
      assert forall j :: 0 <= j < |st| ==> st[j] in st;
      assert chain[..1] == [chain[0]];
      LinkedLast([], chain[0], chain[0].next);
      LinkedNothing(chain[0]);
      assert [] + [chain[0]] == chain[..1];
      hide Linked, EndSlot;
      for i := 0 to |chain| - 1
        invariant Represents(st)
        invariant Linked(chain[..i + 1], chain[i].next)
      {
        assert chain[i] in chain;
        assert chain[..i + 1][..i] == chain[..i];
        SetNext(chain[i], chain[i + 1], chain[..i + 1], chain[i].next);
        LinkedLast(chain[..i + 1], chain[i + 1], chain[i + 1].next);
        assert chain[..i + 1] + [chain[i + 1]] == chain[..i + 2];
      }
      assert chain[..|chain|] == chain;
    }

    method DoInsertChainHead(q: nat, chain: seq<Elem>, ghost st: State)
      requires Distinct(queues) && Represents(st) && Separate(st, pool) && Legal(st, pool, InsertChainHead(q, chain))
      modifies queues, pool
      ensures Represents(st[q := chain + st[q]])
    {
      LinkChain(chain, st);
      hide Linked, Separate, EndSlot;
      ApartFromOthers(st, pool, q);
      assert forall i :: 0 <= i < |chain| ==> chain[i] in chain;
      queues[q].InsertChainHead(chain[0], chain[|chain| - 1], chain);
    }

    method DoRemoveHead(q: nat, ghost st: State)
      requires Distinct(queues) && Represents(st) && Legal(st, pool, RemoveHead(q))
      modifies queues
      ensures Represents(st[q := st[q][1..]])
    {
      hide Linked, EndSlot;
      queues[q].RemoveHead();
    }

    method DoRemoveAfter(q: nat, x: Elem, ghost st: State)
      requires Distinct(queues) && Represents(st) && Separate(st, pool) && Legal(st, pool, RemoveAfter(q, x))
      modifies queues, pool
      ensures Represents(st[q := WithoutNext(st[q], x)])
    {
      hide Linked, Separate, EndSlot, WithoutNext;
      ApartFromOthers(st, pool, q);
      WithoutNextMembers(st[q], x);
      queues[q].RemoveAfter(x);
    }

    method DoRemove(q: nat, e: Elem, ghost st: State)
      requires Distinct(queues) && Represents(st) && Separate(st, pool) && Legal(st, pool, Remove(q, e))
      modifies queues, pool
      ensures Represents(st[q := Without(st[q], e)])
    {
      hide Linked, Separate, EndSlot, Without;
      ApartFromOthers(st, pool, q);
      WithoutMembers(st[q], e);
      queues[q].Remove(e);
    }

    method DoRemoveIf(q: nat, p: Elem -> bool, ghost st: State)
      requires Distinct(queues) && Represents(st) && Separate(st, pool) && q < |st|
      modifies queues, pool
      ensures Represents(st[q := Dropping<Elem>(st[q], p)])
    {
      hide Linked, Separate, EndSlot, Dropping;
      ApartFromOthers(st, pool, q);
      DroppedMembers(st[q], p);
      var visited := queues[q].RemoveIf(p);
    }

    method DoConcat(q: nat, q2: nat, ghost st: State)
      requires Distinct(queues) && Represents(st) && Separate(st, pool) && q < |st| && q2 < |st|
      modifies queues, pool
      ensures Represents(if q == q2 then st[q := []] else st[q := st[q] + st[q2]][q2 := []])
    {
      hide Linked, Separate, EndSlot;
      ApartFromOthers(st, pool, q);
      TailQueue.Concat(queues[q], queues[q2]);
    }

    method DoSwap(q: nat, q2: nat, ghost st: State)
      requires Distinct(queues) && Represents(st) && q < |st| && q2 < |st|
      modifies queues
      ensures Represents(st[q := st[q2]][q2 := st[q]])
    {
      hide Linked, EndSlot;
      TailQueue.Swap(queues[q], queues[q2]);
    }

    lemma {:induction false} Representing(st: State)
      requires Distinct(queues) && Represents(st) && Separate(st, pool)
      ensures Valid() && Abs() == st
    {
      assert Abs() == st;
    }

    /** Every legal operation changes the sequences as `Apply` says and keeps every queue valid. */
    method Do(op: Op)
      requires Valid() && Legal(Abs(), pool, op)
      modifies queues, pool
      ensures Valid() && Abs() == Apply(old(Abs()), pool, op)
    {
      ghost var st := Abs();
      ApplySeparate(st, pool, op);
      hide Represents, Separate, Valid;
      match op {
        case Init(q) => DoInit(q, st);
        case InsertHead(q, e) => DoInsertHead(q, e, st);
        case InsertTail(q, e) => DoInsertTail(q, e, st);
        case InsertAfter(q, x, e) => DoInsertAfter(q, x, e, st);
        case InsertChainHead(q, chain) => DoInsertChainHead(q, chain, st);
        case RemoveHead(q) => DoRemoveHead(q, st);
        case RemoveAfter(q, x) => DoRemoveAfter(q, x, st);
        case Remove(q, e) => DoRemove(q, e, st);
        case RemoveIf(q, p) => DoRemoveIf(q, p, st);
        case Concat(q, q2) => DoConcat(q, q2, st);
        case Swap(q, q2) => DoSwap(q, q2, st);
      }
      Representing(Apply(st, pool, op));
    }

    /** Every finite run of legal operations leaves valid queues that hold what `ApplyAll` says. */
    method Run(ops: seq<Op>)
      requires Valid() && LegalRun(Abs(), pool, ops)
      modifies queues, pool
      ensures Valid() && Abs() == ApplyAll(old(Abs()), pool, ops)
    {
      hide Valid, Legal, Apply;
      ghost var start := Abs();
      assert ops[0..] == ops;
      for k := 0 to |ops|
        invariant Valid() && LegalRun(Abs(), pool, ops[k..])
        invariant ApplyAll(Abs(), pool, ops[k..]) == ApplyAll(start, pool, ops)
      {
        assert ops[k..][1..] == ops[k + 1..];
        Do(ops[k]);
      }
      assert ops[|ops|..] == [];
    }
  }

  // ----- laws between operations ------------------------------------------------------------------

  /** The operations that put one element into a queue. */
  ghost predicate Inserts(op: Op, e: Elem) {
    match op
    case InsertHead(_, e') => e' == e
    case InsertTail(_, e') => e' == e
    case InsertAfter(_, _, e') => e' == e
    case _ => false
  }

  lemma {:induction false} RemoveInserted(s: seq<Elem>, x: Elem, e: Elem)
    requires e !in s && x in s
    ensures Without(InsertedAfter(s, x, e), e) == s
    ensures e in InsertedAfter(s, x, e)
  {
    if s[0] != x {
      RemoveInserted(s[1..], x, e);
    }
  }

  /** Removing an element undoes its insertion, wherever it was inserted. */
  lemma {:induction false} RemoveUndoesInsert(st: State, pool: set<Elem>, op: Op, e: Elem)
    requires Legal(st, pool, op) && Inserts(op, e)
    ensures var st' := Apply(st, pool, op);
      Legal(st', pool, Remove(op.q, e)) && Apply(st', pool, Remove(op.q, e)) == st
  {
    var s := st[op.q];
    assert s in st;
    var st' := Apply(st, pool, op);
    match op {
      case InsertHead(_, _) =>
        assert Without([e] + s, e) == s;
      case InsertTail(_, _) =>
        WithoutMiddle(s, e, []);
        assert s + [e] == s + ([e] + []) && s + [] == s;
      case InsertAfter(_, x, _) =>
        RemoveInserted(s, x, e);
    }
    assert Without(st'[op.q], e) == s;
  }

  /** Some queue holds the element. */
  ghost predicate Held(st: State, e: Elem) {
    exists i :: 0 <= i < |st| && e in st[i]
  }

  /** Concatenating keeps every element: exactly when a queue is not concatenated with itself, or is empty. */
  lemma {:induction false} ConcatKeepsElements(st: State, pool: set<Elem>, q: nat, q2: nat)
    requires Separate(st, pool) && q < |st| && q2 < |st|
    ensures (forall e <- pool :: Held(st, e) <==> Held(Apply(st, pool, Concat(q, q2)), e))
      <==> (q != q2 || st[q] == [])
  {
    var r := Apply(st, pool, Concat(q, q2));
    if q != q2 {
      assert r[q] == st[q] + st[q2];
      forall e | Held(st, e) ensures Held(r, e) {
        var i :| 0 <= i < |st| && e in st[i];
        assert e in r[if i == q2 then q else i];
      }
      forall e | Held(r, e) ensures Held(st, e) {
        var i :| 0 <= i < |r| && e in r[i];
        assert i == q ==> e in st[q] || e in st[q2];
      }
    } else if st[q] == [] {
      assert r == st;
    } else {
      var e := st[q][0];
      assert e in st[q] && e in pool && Held(st, e);
      forall i | 0 <= i < |r| ensures e !in r[i] {
        if i != q {
          ApartPair(st, pool, q, i);
        }
      }
    }
  }

  /** Swapping twice restores both queues, and swapping a queue with itself changes nothing. */
  lemma {:induction false} SwapTwice(st: State, pool: set<Elem>, q: nat, q2: nat)
    requires q < |st| && q2 < |st|
    ensures Apply(Apply(st, pool, Swap(q, q2)), pool, Swap(q, q2)) == st
    ensures q == q2 ==> Apply(st, pool, Swap(q, q2)) == st
  {
    var r := Apply(st, pool, Swap(q, q2));
    assert r[q] == st[q2] && r[q2] == st[q];
  }

  /** A run can be cut anywhere: the second part starts from what the first part leaves. */
  lemma {:induction false} RunAppend(st: State, pool: set<Elem>, xs: seq<Op>, ys: seq<Op>)
    ensures LegalRun(st, pool, xs + ys) <==>
      LegalRun(st, pool, xs) && LegalRun(ApplyAll(st, pool, xs), pool, ys)
    ensures LegalRun(st, pool, xs + ys) ==>
      ApplyAll(st, pool, xs + ys) == ApplyAll(ApplyAll(st, pool, xs), pool, ys)
    decreases |xs|
  {
    hide Legal, Apply;
    if xs == [] {
      assert xs + ys == ys;
    } else {
      assert (xs + ys)[1..] == xs[1..] + ys;
      if Legal(st, pool, xs[0]) {
        RunAppend(Apply(st, pool, xs[0]), pool, xs[1..], ys);
      }
    }
  }
}
