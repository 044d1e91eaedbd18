/** What the queue operations mean for the sequence of elements. */
module Sequences {

  ghost predicate Distinct<T>(s: seq<T>) {
    forall i, j :: 0 <= i < j < |s| ==> s[i] != s[j]
  }

  ghost predicate Apart<T>(s: seq<T>, t: seq<T>) {
    forall i, j :: 0 <= i < |s| && 0 <= j < |t| ==> s[i] != t[j]
  }

  ghost predicate Inside<T>(s: seq<T>, t: seq<T>) {
    forall i :: 0 <= i < |s| ==> s[i] in t
  }

  lemma {:induction false} InsideCut<T>(a: seq<T>, v: T, b: seq<T>, t: seq<T>)
    requires Inside(a + ([v] + b), t)
    ensures Inside(a + b, t)
  {
    var s, r := a + ([v] + b), a + b;
    assert forall i :: 0 <= i < |a| ==> r[i] == s[i];
    assert forall i :: |a| <= i < |r| ==> r[i] == s[i + 1];
  }

  /** The sequence without the first occurrence of an element. */
  function Without<T(==)>(s: seq<T>, e: T): seq<T> {
    if s == [] then []
    else if s[0] == e then s[1..]
    else [s[0]] + Without(s[1..], e)
  }

  /** The sequence with `e` put right after `x`. */
  function InsertedAfter<T(==)>(s: seq<T>, x: T, e: T): seq<T> {
    if s == [] then []
    else if s[0] == x then [x, e] + s[1..]
    else [s[0]] + InsertedAfter(s[1..], x, e)
  }

  /** The sequence without the element that follows `x`. */
  function WithoutNext<T(==)>(s: seq<T>, x: T): seq<T> {
    if |s| < 2 then s
    else if s[0] == x then [x] + s[2..]
    else [s[0]] + WithoutNext(s[1..], x)
  }

  /** The elements that do not satisfy `p`, in their order. */
  function Dropping<T>(s: seq<T>, p: T -> bool): seq<T> {
    if s == [] then []
    else (if p(s[0]) then [] else [s[0]]) + Dropping(s[1..], p)
  }

  /** The sequence without the first element that satisfies `p`. */
  function WithoutFirst<T>(s: seq<T>, p: T -> bool): seq<T> {
    if s == [] then []
    else if p(s[0]) then s[1..]
    else [s[0]] + WithoutFirst(s[1..], p)
  }

  lemma {:induction false} WithoutFirstMiddle<T>(a: seq<T>, e: T, b: seq<T>, p: T -> bool)
    requires forall d <- a :: !p(d)
    ensures p(e) ==> WithoutFirst(a + ([e] + b), p) == a + b
    ensures WithoutFirst(a, p) == a
    decreases |a|
  {
    var s := a + ([e] + b);
    if a == [] {
      assert s == [e] + b;
    } else {
      assert s[1..] == a[1..] + ([e] + b);
      WithoutFirstMiddle(a[1..], e, b, p);
      assert [a[0]] + (a[1..] + b) == a + b;
    }
  }

  /** Every match stands at or after the first one. */
  lemma {:induction false} FirstMatch<T>(a: seq<T>, e: T, b: seq<T>, p: T -> bool)
    requires forall d <- a :: !p(d)
    ensures var s := a + ([e] + b); forall i :: 0 <= i < |s| && p(s[i]) ==> e in s[..i + 1]
  {
    var s := a + ([e] + b);
    assert forall j :: 0 <= j < |a| ==> a[j] in a && s[j] == a[j];
    forall i | 0 <= i < |s| && p(s[i]) ensures e in s[..i + 1] {
      assert i >= |a|;
      assert s[..i + 1][|a|] == e;
    }
  }

  /** Searching for one element is removing it. */
  lemma {:induction false} WithoutFirstIsWithout<T>(s: seq<T>, e: T)
    ensures WithoutFirst(s, d => d == e) == Without(s, e)
  {
    if s != [] {
      WithoutFirstIsWithout(s[1..], e);
    }
  }

  lemma {:induction false} WithoutMiddle<T>(a: seq<T>, e: T, b: seq<T>)
    requires e !in a
    ensures Without(a + ([e] + b), e) == a + b
    decreases |a|
  {
    var s := a + ([e] + b);
    if a == [] {
      assert s == [e] + b;
    } else {
      assert s[1..] == a[1..] + ([e] + b);
      WithoutMiddle(a[1..], e, b);
      assert [a[0]] + (a[1..] + b) == a + b;
    }
  }

  lemma {:induction false} InsertedAfterMiddle<T>(a: seq<T>, x: T, b: seq<T>, e: T)
    requires x !in a
    ensures InsertedAfter(a + ([x] + b), x, e) == a + ([x, e] + b)
    decreases |a|
  {
    var s := a + ([x] + b);
    if a == [] {
      assert s == [x] + b && s[1..] == b;
    } else {
      assert s[1..] == a[1..] + ([x] + b);
      InsertedAfterMiddle(a[1..], x, b, e);
      assert [a[0]] + (a[1..] + ([x, e] + b)) == a + ([x, e] + b);
    }
  }

  lemma {:induction false} WithoutNextMiddle<T>(a: seq<T>, x: T, y: T, b: seq<T>)
    requires x !in a
    ensures WithoutNext(a + ([x, y] + b), x) == a + ([x] + b)
    decreases |a|
  {
    var s := a + ([x, y] + b);
    if a == [] {
      assert s == [x, y] + b && s[2..] == b;
    } else {
      assert s[1..] == a[1..] + ([x, y] + b);
      WithoutNextMiddle(a[1..], x, y, b);
      assert [a[0]] + (a[1..] + ([x] + b)) == a + ([x] + b);
    }
  }

  lemma {:induction false} DistinctParts<T>(a: seq<T>, x: T, b: seq<T>)
    requires Distinct(a + ([x] + b))
    ensures x !in b && Apart(a, [x] + b)
  {
    var s, r := a + ([x] + b), [x] + b;
    assert forall i :: 0 <= i < |a| ==> s[i] == a[i];
    assert forall i :: 0 <= i < |r| ==> s[|a| + i] == r[i];
    assert forall i :: 0 <= i < |b| ==> s[|a| + 1 + i] == b[i];
    assert s[|a|] == x;
  }

  /** The parts before and after the first occurrence of an element. */
  lemma {:induction false} Cut<T>(s: seq<T>, x: T) returns (a: seq<T>, b: seq<T>)
    requires x in s
    ensures s == a + ([x] + b) && x !in a
    ensures Distinct(s) ==> x !in b && Apart(a, [x] + b)
    decreases |s|
  {
    hide Distinct, Apart;
    if s[0] == x {
      a, b := [], s[1..];
    } else {
      a, b := Cut(s[1..], x);
      a := [s[0]] + a;
    }
    assert s == a + ([x] + b);
    if Distinct(s) {
      DistinctParts(a, x, b);
    }
  }

  /** The parts around an element and the one after it. */
  lemma {:induction false} CutPair<T>(s: seq<T>, v: T) returns (a: seq<T>, w: T, b: seq<T>)
    requires Distinct(s) && v in s && v != s[|s| - 1]
    ensures s == a + ([v, w] + b) && v !in a && v !in b && v != w
  {
    var r;
    a, r := Cut(s, v);
    assert s == a + [v] + r;
    w, b := r[0], r[1..];
    assert [v] + r == [v, w] + b;
  }

  lemma DroppingNothing<T>(p: T -> bool)
    ensures Dropping([], p) == []
  {
  }

  lemma {:induction false} DroppingAppend<T>(s: seq<T>, e: T, p: T -> bool)
    ensures Dropping(s + [e], p) == Dropping(s, p) + if p(e) then [] else [e]
  {
    if s == [] {
      assert (s + [e])[1..] == [];
    } else {
      assert (s + [e])[1..] == s[1..] + [e];
      DroppingAppend(s[1..], e, p);
    }
  }

  /** The filter keeps exactly the elements that do not satisfy `p`. */
  lemma {:induction false} DroppingMembers<T>(s: seq<T>, p: T -> bool)
    ensures forall e :: e in Dropping(s, p) <==> e in s && !p(e)
  {
    if s != [] {
      DroppingMembers(s[1..], p);
    }
  }
}
