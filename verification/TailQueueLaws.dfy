/** Laws that tie the tail queue operations to one another, to positions and to order. */
module TailQueueLaws {
  import opened Sequences
  import opened Chains
  import opened TailQueueRuns

  /** The operation works on queue `i`. */
  predicate Names(op: Op, i: nat) {
    i == op.q || ((op.Concat? || op.Swap?) && i == op.q2)
  }

  /** Every queue that an operation does not name is unchanged. */
  lemma OthersUnchanged(st: State, pool: set<Elem>, op: Op, i: nat)
    requires Legal(st, pool, op) && i < |st| && !Names(op, i)
    ensures Apply(st, pool, op)[i] == st[i]
  {
  }

  // ----- one element --------------------------------------------------------------------------

  /** The head is the end that InsertHead uses and RemoveHead takes from: each undoes the other. */
  lemma {:induction false} HeadLaws(st: State, pool: set<Elem>, q: nat, e: Elem)
    requires Legal(st, pool, InsertHead(q, e))
    ensures var r := Apply(st, pool, InsertHead(q, e));
      && r[q][0] == e
      && Legal(r, pool, RemoveHead(q)) && Apply(r, pool, RemoveHead(q)) == st
    ensures st[q] != [] ==>
      var r := Apply(st, pool, RemoveHead(q));
      |r[q]| == |st[q]| - 1 && forall i :: 0 <= i < |r[q]| ==> r[q][i] == st[q][i + 1]
  {
    assert ([e] + st[q])[1..] == st[q];
  }

  /** The new element is the last one, and the others keep their positions. */
  lemma TailLaws(st: State, pool: set<Elem>, q: nat, e: Elem)
    requires Legal(st, pool, InsertTail(q, e))
    ensures var r := Apply(st, pool, InsertTail(q, e));
      && |r[q]| == |st[q]| + 1 && r[q][|st[q]|] == e
      && forall i :: 0 <= i < |st[q]| ==> r[q][i] == st[q][i]
  {
  }

  /** On an empty queue both ends are the same. */
  lemma EmptyEnds(st: State, pool: set<Elem>, q: nat, e: Elem)
    requires Legal(st, pool, InsertHead(q, e)) && st[q] == []
    ensures Apply(st, pool, InsertHead(q, e)) == Apply(st, pool, InsertTail(q, e))
  {
    assert [e] + st[q] == st[q] + [e];
  }

  lemma {:induction false} DistinctAt(s: seq<Elem>, i: nat)
    requires Distinct(s) && i < |s|
    ensures s == s[..i] + ([s[i]] + s[i + 1..]) && s[i] !in s[..i] && s[i] !in s[i + 1..]
  {
    assert s == s[..i] + ([s[i]] + s[i + 1..]);
    DistinctParts(s[..i], s[i], s[i + 1..]);
  }

  /**
   * The new element stands right after the given one, and RemoveAfter undoes the insertion. After the
   * last element it is InsertTail.
   */
  lemma {:induction false} AfterLaws(st: State, pool: set<Elem>, q: nat, i: nat, e: Elem)
    requires q < |st| && i < |st[q]| && Distinct(st[q]) && Legal(st, pool, InsertTail(q, e))
    ensures var s, x := st[q], st[q][i];
      Legal(st, pool, InsertAfter(q, x, e)) &&
      var r := Apply(st, pool, InsertAfter(q, x, e));
      && r[q] == s[..i + 1] + [e] + s[i + 1..]
      && Legal(r, pool, RemoveAfter(q, x)) && Apply(r, pool, RemoveAfter(q, x)) == st
      && (i == |s| - 1 ==> r == Apply(st, pool, InsertTail(q, e)))
  {
    hide InsertedAfter, WithoutNext, Distinct;
    var s, x := st[q], st[q][i];
    var a, b := s[..i], s[i + 1..];
    DistinctAt(s, i);
    assert s in st;
    InsertedAfterMiddle(a, x, b, e);
    WithoutNextMiddle(a, x, e, b);
    var r := Apply(st, pool, InsertAfter(q, x, e));
    assert r[q] == a + ([x, e] + b) == s[..i + 1] + [e] + b;
    assert r[q][i] == x;
    assert r[q][|r[q]| - 1] == if b == [] then e else b[|b| - 1];
    assert r[q := s] == st;
    if i == |s| - 1 {
      assert r[q] == s + [e];
    }
  }

  lemma {:induction false} NextMiddle(a: seq<Elem>, x: Elem, e: Elem, b: seq<Elem>)
    requires x !in a && e !in a && x != e
    ensures var s, r := a + ([x, e] + b), a + ([x] + b);
      WithoutNext(s, x) == Without(s, e) == r && InsertedAfter(r, x, e) == s
  {
    hide InsertedAfter, WithoutNext, Without;
    WithoutNextMiddle(a, x, e, b);
    InsertedAfterMiddle(a, x, b, e);
    WithoutMiddle(a + [x], e, b);
    assert (a + [x]) + ([e] + b) == a + ([x, e] + b);
    assert (a + [x]) + b == a + ([x] + b);
  }

  lemma {:induction false} NextOfSequence(s: seq<Elem>, i: nat)
    requires Distinct(s) && i + 1 < |s|
    ensures s[i] != s[|s| - 1] && s[i + 1] !in s[..i + 1] + s[i + 2..]
    ensures var r := s[..i + 1] + s[i + 2..];
      WithoutNext(s, s[i]) == Without(s, s[i + 1]) == r && InsertedAfter(r, s[i], s[i + 1]) == s
  {
    hide InsertedAfter, WithoutNext, Without;
    assert s[i] != s[|s| - 1];
    DistinctAt(s, i);
    DistinctAt(s, i + 1);
    hide Distinct;
    var a, b := s[..i], s[i + 2..];
    assert s[..i + 1] == a + [s[i]];
    NextMiddle(a, s[i], s[i + 1], b);
    assert s == a + ([s[i], s[i + 1]] + b);
    assert s[..i + 1] + b == a + ([s[i]] + b);
  }

  /** RemoveAfter takes the next element, and inserting that again after the given one undoes it. */
  lemma {:induction false} NextLaws(st: State, pool: set<Elem>, q: nat, i: nat)
    requires Separate(st, pool) && q < |st| && i + 1 < |st[q]| && Distinct(st[q])
    ensures var s, x, e := st[q], st[q][i], st[q][i + 1];
      Legal(st, pool, RemoveAfter(q, x)) &&
      var r := Apply(st, pool, RemoveAfter(q, x));
      && r == Apply(st, pool, Remove(q, e))
      && r[q] == s[..i + 1] + s[i + 2..]
      && Legal(r, pool, InsertAfter(q, x, e)) && Apply(r, pool, InsertAfter(q, x, e)) == st
  {
    hide InsertedAfter, WithoutNext, Without, Distinct, Separate;
    var s, x, e := st[q], st[q][i], st[q][i + 1];
    NextOfSequence(s, i);
    var r := Apply(st, pool, RemoveAfter(q, x));
    RemovedIsFree(st, pool, q, r, e);
    assert r[q][i] == x;
    assert r[q := s] == st;
  }

  lemma {:induction false} RemovedIsFree(st: State, pool: set<Elem>, q: nat, r: State, e: Elem)
    requires Separate(st, pool) && q < |st| && e in st[q]
    requires |r| == |st| && e !in r[q] && forall j :: 0 <= j < |st| && j != q ==> r[j] == st[j]
    ensures e in pool && Free(r, e)
  {
    forall j | 0 <= j < |st| && j != q ensures e !in r[j] {
      ApartPair(st, pool, q, j);
    }
  }

  /** Remove takes the element at its position and nothing else; at the front it is RemoveHead. */
  lemma {:induction false} RemoveLaws(st: State, pool: set<Elem>, q: nat, i: nat)
    requires q < |st| && i < |st[q]| && Distinct(st[q])
    ensures var s := st[q];
      var r := Apply(st, pool, Remove(q, s[i]));
      && r[q] == s[..i] + s[i + 1..]
      && (i == 0 ==> r == Apply(st, pool, RemoveHead(q)))
  {
    hide Without;
    DistinctAt(st[q], i);
    WithoutMiddle(st[q][..i], st[q][i], st[q][i + 1..]);
    assert i == 0 ==> st[q][..i] + st[q][i + 1..] == st[q][1..];
  }

  // ----- many elements --------------------------------------------------------------------------

  /** A reset queue is empty, and its elements are free. */
  lemma {:induction false} InitLaws(st: State, pool: set<Elem>, q: nat)
    requires Separate(st, pool) && q < |st|
    ensures var r := Apply(st, pool, Init(q));
      |r[q]| == 0 && forall e <- st[q] :: Legal(r, pool, InsertHead(q, e))
  {
    var r := Apply(st, pool, Init(q));
    forall e | e in st[q] ensures e in pool && Free(r, e) {
      RemovedIsFree(st, pool, q, r, e);
    }
  }

  /** Inserting a chain is inserting its elements at the head, the last one first. */
  lemma {:induction false} ChainLaws(st: State, pool: set<Elem>, q: nat, e: Elem, chain: seq<Elem>)
    requires Legal(st, pool, InsertChainHead(q, [e] + chain))
    ensures Legal(st, pool, InsertHead(q, e))
    ensures chain == [] ==> Apply(st, pool, InsertChainHead(q, [e] + chain)) == Apply(st, pool, InsertHead(q, e))
    ensures chain != [] ==>
      Legal(st, pool, InsertChainHead(q, chain)) &&
      var r := Apply(st, pool, InsertChainHead(q, chain));
      && Legal(r, pool, InsertHead(q, e))
      && Apply(r, pool, InsertHead(q, e)) == Apply(st, pool, InsertChainHead(q, [e] + chain))
  {
    ChainParts(e, chain);
    if chain == [] {
      assert [e] + chain == [e];
    } else {
      var r := Apply(st, pool, InsertChainHead(q, chain));
      assert [e] + (chain + st[q]) == ([e] + chain) + st[q];
      assert forall s <- r :: s in st || s == chain + st[q];
    }
  }

  lemma {:induction false} ChainParts(e: Elem, chain: seq<Elem>)
    requires Distinct([e] + chain)
    ensures Distinct(chain) && e !in chain
    ensures forall d :: d in [e] + chain <==> d == e || d in chain
  {
    var all := [e] + chain;
    assert all[0] == e && forall i :: 0 <= i < |chain| ==> chain[i] == all[i + 1];
  }

  /** `e` stands before `f`. */
  ghost predicate Before(s: seq<Elem>, e: Elem, f: Elem) {
    exists i, j :: 0 <= i < j < |s| && s[i] == e && s[j] == f
  }

  lemma {:induction false} BeforeFirst(s: seq<Elem>, e: Elem, f: Elem)
    requires s != []
    ensures Before(s, e, f) <==> (s[0] == e && f in s[1..]) || Before(s[1..], e, f)
  {
    var t := s[1..];
    if Before(s, e, f) {
      var i, j :| 0 <= i < j < |s| && s[i] == e && s[j] == f;
      assert t[j - 1] == f;
      assert i > 0 ==> t[i - 1] == e;
    }
    if Before(t, e, f) {
      var i, j :| 0 <= i < j < |t| && t[i] == e && t[j] == f;
      assert s[i + 1] == e && s[j + 1] == f;
    }
    if s[0] == e && f in t {
      var j :| 0 <= j < |t| && t[j] == f;
      assert s[j + 1] == f;
    }
  }

  lemma {:induction false} DroppingOrder(s: seq<Elem>, p: Elem -> bool, e: Elem, f: Elem)
    ensures Before(Dropping(s, p), e, f) <==> Before(s, e, f) && !p(e) && !p(f)
  {
    hide Before;
    if s == [] {
      NothingBefore(e, f);
    } else {
      var d := Dropping(s[1..], p);
      DroppingOrder(s[1..], p, e, f);
      DroppingMembers<Elem>(s[1..], p);
      BeforeFirst(s, e, f);
      if p(s[0]) {
        assert Dropping(s, p) == d;
      } else {
        BeforeFirst([s[0]] + d, e, f);
        assert ([s[0]] + d)[1..] == d;
      }
    }
  }

  lemma NothingBefore(e: Elem, f: Elem)
    ensures !Before([], e, f)
  {
  }

  lemma {:induction false} DroppingOne(s: seq<Elem>, p: Elem -> bool, e: Elem)
    requires Distinct(s) && forall d :: p(d) <==> d == e
    ensures Dropping(s, p) == Without(s, e)
  {
    if s != [] {
      var t := s[1..];
      assert forall i :: 0 <= i < |t| ==> t[i] == s[i + 1];
      assert s[0] !in t;
      DroppingOne(t, p, e);
      if s[0] == e {
        WithoutAbsent(t, e);
      }
    }
  }

  lemma {:induction false} WithoutAbsent(s: seq<Elem>, e: Elem)
    requires e !in s
    ensures Without(s, e) == s
  {
    if s != [] {
      WithoutAbsent(s[1..], e);
    }
  }

  /**
   * The elements that satisfy `p` are gone, the others are there in their order; with one element to
   * be removed it is Remove.
   */
  lemma {:induction false} RemoveIfLaws(st: State, pool: set<Elem>, q: nat, p: Elem -> bool)
    requires q < |st|
    ensures var r := Apply(st, pool, RemoveIf(q, p));
      && (forall e :: e in r[q] <==> e in st[q] && !p(e))
      && (forall e, f :: Before(r[q], e, f) <==> Before(st[q], e, f) && !p(e) && !p(f))
    ensures forall e <- st[q] :: Distinct(st[q]) && (forall d :: p(d) <==> d == e) ==>
      Apply(st, pool, RemoveIf(q, p)) == Apply(st, pool, Remove(q, e))
  {
    DroppingMembers<Elem>(st[q], p);
    forall e, f ensures Before(Dropping<Elem>(st[q], p), e, f) <==> Before(st[q], e, f) && !p(e) && !p(f) {
      DroppingOrder(st[q], p, e, f);
    }
    forall e | e in st[q] && Distinct(st[q]) && (forall d :: p(d) <==> d == e)
      ensures Apply(st, pool, RemoveIf(q, p)) == Apply(st, pool, Remove(q, e))
    {
      DroppingOne(st[q], p, e);
    }
  }

  // ----- two queues -----------------------------------------------------------------------------

  /**
   * Concatenating moves the elements of the second queue, first to last, to the tail of the first
   * one; a queue concatenated with itself is reset.
   */
  lemma {:induction false} ConcatLaws(st: State, pool: set<Elem>, q: nat, q2: nat)
    requires Separate(st, pool) && q < |st| && q2 < |st| && Distinct(st[q2])
    ensures q == q2 ==> Apply(st, pool, Concat(q, q2)) == Apply(st, pool, Init(q))
    ensures st[q2] == [] && q != q2 ==> Apply(st, pool, Concat(q, q2)) == st
    ensures st[q2] != [] && q != q2 ==>
      var r := Apply(st, pool, RemoveHead(q2));
      && Legal(r, pool, InsertTail(q, st[q2][0]))
      && Apply(Apply(r, pool, InsertTail(q, st[q2][0])), pool, Concat(q, q2)) == Apply(st, pool, Concat(q, q2))
  {
    var goal := Apply(st, pool, Concat(q, q2));
    if q != q2 {
      if st[q2] == [] {
        assert st[q] + st[q2] == st[q];
        assert goal == st;
      } else {
        var e := st[q2][0];
        var r := Apply(st, pool, RemoveHead(q2));
        DistinctAt(st[q2], 0);
        RemovedIsFree(st, pool, q2, r, e);
        var r' := Apply(r, pool, InsertTail(q, e));
        assert (st[q] + [e]) + st[q2][1..] == st[q] + st[q2];
        assert Apply(r', pool, Concat(q, q2)) == goal;
      }
    }
  }

  /** Each queue holds what the other one held; the order of the arguments does not matter. */
  lemma {:induction false} SwapLaws(st: State, pool: set<Elem>, q: nat, q2: nat)
    requires q < |st| && q2 < |st|
    ensures var r := Apply(st, pool, Swap(q, q2));
      && r[q] == st[q2] && r[q2] == st[q]
      && r == Apply(st, pool, Swap(q2, q))
      && (st[q] == [] && q != q2 ==> r == Apply(st, pool, Concat(q, q2)))
  {
    var r := Apply(st, pool, Swap(q, q2));
    assert r == Apply(st, pool, Swap(q2, q));
    if st[q] == [] {
      assert st[q] + st[q2] == st[q2];
    }
  }

  // ----- runs -----------------------------------------------------------------------------------

  /** A run of one operation is that operation. */
  lemma {:induction false} RunOfOne(st: State, pool: set<Elem>, op: Op)
    ensures LegalRun(st, pool, [op]) <==> Legal(st, pool, op)
    ensures Legal(st, pool, op) ==> ApplyAll(st, pool, [op]) == Apply(st, pool, op)
  {
    assert [op][1..] == [];
  }

  /** In the heap no queue holds an element twice, so the laws apply to every state of a run. */
  lemma {:induction false} QueuesDistinct(w: World)
    requires w.Valid()
    ensures Separate(w.Abs(), w.pool) && forall s <- w.Abs() :: Distinct(s)
  {
    forall i | 0 <= i < |w.queues| ensures Distinct(w.queues[i].elems) {
      assert w.queues[i].Valid();
      LinkedDistinct(w.queues[i].elems);
    }
  }
}
