/** Histories of one key: which words they form and how far apart their events are. */
module KeyWords {
  import opened KeyModel
  import opened KeySingle

  // ----- the words (Press LongCall? Release)* and (Release ShortCall)* -----------------------

  /** Prefixes of words in (Press LongCall? Release)*. */
  predicate PressWord(w: seq<Kind>) {
    || w == []
    || w == [Press]
    || w == [Press, LongCall]
    || (|w| >= 2 && w[..2] == [Press, Release] && PressWord(w[2..]))
    || (|w| >= 3 && w[..3] == [Press, LongCall, Release] && PressWord(w[3..]))
  }

  /** Prefixes of words in (Release ShortCall)*. */
  predicate CallWord(w: seq<Kind>) {
    || w == []
    || w == [Release]
    || (|w| >= 2 && w[..2] == [Release, ShortCall] && CallWord(w[2..]))
  }

  function Kinds(log: seq<KeyEvent>, keep: set<Kind>): seq<Kind> {
    if log == [] then [] else
      var kind := log[|log| - 1].kind;
      Kinds(log[..|log| - 1], keep) + (if kind in keep then [kind] else [])
  }

  /** Presses, long calls and releases. */
  function PressKinds(log: seq<KeyEvent>): seq<Kind> {
    Kinds(log, {Press, LongCall, Release})
  }

  /** Releases and short calls. */
  function CallKinds(log: seq<KeyEvent>): seq<Kind> {
    Kinds(log, {Release, ShortCall})
  }

  // ----- automata ------------------------------------------------------------------------------

  datatype Phase = Up | Down | Called | Wrong

  function PhaseStep(p: Phase, kind: Kind): Phase {
    match kind
    case Press => if p == Up then Down else Wrong
    case LongCall => if p == Down then Called else Wrong
    case Release => if p == Down || p == Called then Up else Wrong
    case ShortCall => p
  }

  function PhaseFrom(p: Phase, w: seq<Kind>): Phase
    decreases |w|
  {
    if w == [] then p else PhaseFrom(PhaseStep(p, w[0]), w[1..])
  }

  function PhaseOf(log: seq<KeyEvent>): Phase {
    if log == [] then Up else PhaseStep(PhaseOf(log[..|log| - 1]), log[|log| - 1].kind)
  }

  datatype Debt = Quiet | Owed | Bad

  function DebtStep(d: Debt, kind: Kind): Debt {
    match kind
    case Release => if d == Quiet then Owed else Bad
    case ShortCall => if d == Owed then Quiet else Bad
    case _ => d
  }

  function DebtFrom(d: Debt, w: seq<Kind>): Debt
    decreases |w|
  {
    if w == [] then d else DebtFrom(DebtStep(d, w[0]), w[1..])
  }

  function DebtOf(log: seq<KeyEvent>): Debt {
    if log == [] then Quiet else DebtStep(DebtOf(log[..|log| - 1]), log[|log| - 1].kind)
  }

  lemma {:induction false} PhaseFromWrong(w: seq<Kind>)
    ensures PhaseFrom(Wrong, w) == Wrong
  {
    if w != [] {
      assert PhaseStep(Wrong, w[0]) == Wrong;
      PhaseFromWrong(w[1..]);
    }
  }

  lemma {:induction false} PhaseFromAppend(p: Phase, w: seq<Kind>, k: Kind)
    ensures PhaseFrom(p, w + [k]) == PhaseStep(PhaseFrom(p, w), k)
    decreases |w|
  {
    if w == [] {
      assert (w + [k])[1..] == [];
    } else {
      assert (w + [k])[1..] == w[1..] + [k];
      PhaseFromAppend(PhaseStep(p, w[0]), w[1..], k);
    }
  }

  lemma {:induction false} DebtFromBad(w: seq<Kind>)
    ensures DebtFrom(Bad, w) == Bad
  {
    if w != [] {
      assert DebtStep(Bad, w[0]) == Bad;
      DebtFromBad(w[1..]);
    }
  }

  lemma {:induction false} DebtFromAppend(d: Debt, w: seq<Kind>, k: Kind)
    ensures DebtFrom(d, w + [k]) == DebtStep(DebtFrom(d, w), k)
    decreases |w|
  {
    if w == [] {
      assert (w + [k])[1..] == [];
    } else {
      assert (w + [k])[1..] == w[1..] + [k];
      DebtFromAppend(DebtStep(d, w[0]), w[1..], k);
    }
  }

  lemma {:induction false} PhaseTwo(w: seq<Kind>)
    requires |w| >= 2
    ensures PhaseFrom(Up, w) == PhaseFrom(PhaseStep(PhaseStep(Up, w[0]), w[1]), w[2..])
  {
    assert w[1..][1..] == w[2..];
  }

  /** The automaton accepts exactly the prefixes of (Press LongCall? Release)*. */
  lemma {:induction false} PhaseIsWord(w: seq<Kind>)
    requires ShortCall !in w
    ensures PhaseFrom(Up, w) != Wrong <==> PressWord(w)
    decreases |w|
  {
    if |w| == 1 {
      assert w == [w[0]];
      assert PhaseFrom(Up, w) == PhaseStep(Up, w[0]);
    } else if |w| >= 2 {
      PhaseTwo(w);
      assert w[0] in w && w[1] in w;
      if w[0] != Press || w[1] == Press {
        PhaseFromWrong(w[2..]);
      } else if w[1] == Release {
        assert w[..2] == [Press, Release];
        PhaseIsWord(w[2..]);
      } else {
        assert w[1] == LongCall;
        if |w| == 2 {
          assert w == [Press, LongCall];
        } else {
          assert w[2] in w;
          assert PhaseFrom(Called, w[2..]) == PhaseFrom(PhaseStep(Called, w[2]), w[3..]) by {
            assert w[2..][1..] == w[3..];
          }
          if w[2] == Release {
            assert w[..3] == [Press, LongCall, Release];
            PhaseIsWord(w[3..]);
          } else {
            PhaseFromWrong(w[3..]);
          }
        }
      }
    }
  }

  /** The automaton accepts exactly the prefixes of (Release ShortCall)*. */
  lemma {:induction false} DebtIsWord(w: seq<Kind>)
    requires forall k <- w :: k == Release || k == ShortCall
    ensures DebtFrom(Quiet, w) != Bad <==> CallWord(w)
    decreases |w|
  {
    if |w| == 1 {
      assert w == [w[0]] && w[0] in w;
      assert DebtFrom(Quiet, w) == DebtStep(Quiet, w[0]);
    } else if |w| >= 2 {
      assert w[1..][1..] == w[2..];
      assert DebtFrom(Quiet, w) == DebtFrom(DebtStep(DebtStep(Quiet, w[0]), w[1]), w[2..]);
      assert w[0] in w && w[1] in w;
      if w[0] == Release && w[1] == ShortCall {
        assert w[..2] == [Release, ShortCall];
        assert forall k <- w[2..] :: k in w;
        DebtIsWord(w[2..]);
      } else {
        DebtFromBad(w[2..]);
      }
    }
  }

  lemma {:induction false} KindsKept(log: seq<KeyEvent>, keep: set<Kind>)
    ensures forall k <- Kinds(log, keep) :: k in keep
  {
    if log != [] {
      KindsKept(log[..|log| - 1], keep);
    }
  }

  lemma {:induction false} PhaseOfKinds(log: seq<KeyEvent>)
    ensures PhaseFrom(Up, PressKinds(log)) == PhaseOf(log)
  {
    if log != [] {
      PhaseOfKinds(log[..|log| - 1]);
      PhaseFromAppend(Up, PressKinds(log[..|log| - 1]), log[|log| - 1].kind);
      assert PressKinds(log[..|log| - 1]) + [] == PressKinds(log[..|log| - 1]);
    }
  }

  lemma {:induction false} DebtOfKinds(log: seq<KeyEvent>)
    ensures DebtFrom(Quiet, CallKinds(log)) == DebtOf(log)
  {
    if log != [] {
      DebtOfKinds(log[..|log| - 1]);
      DebtFromAppend(Quiet, CallKinds(log[..|log| - 1]), log[|log| - 1].kind);
      assert CallKinds(log[..|log| - 1]) + [] == CallKinds(log[..|log| - 1]);
    }
  }

  lemma {:induction false} LogWords(log: seq<KeyEvent>)
    ensures PhaseOf(log) != Wrong <==> PressWord(PressKinds(log))
    ensures DebtOf(log) != Bad <==> CallWord(CallKinds(log))
  {
    PhaseOfKinds(log);
    DebtOfKinds(log);
    KindsKept(log, {Press, LongCall, Release});
    KindsKept(log, {Release, ShortCall});
    PhaseIsWord(PressKinds(log));
    DebtIsWord(CallKinds(log));
  }

  // ----- times ---------------------------------------------------------------------------------

  /** The time of the last press. */
  function LastPress(log: seq<KeyEvent>): nat {
    if log == [] then 0
    else if log[|log| - 1].kind == Press then log[|log| - 1].time
    else LastPress(log[..|log| - 1])
  }

  /** How long after the press an event may happen at the earliest. */
  function Delay(kind: Kind): nat {
    match kind
    case LongCall => 5000
    case Release => 50
    case _ => 0
  }

  /** Times do not decrease; long calls and releases keep their distance from the press before them. */
  predicate WellTimed(log: seq<KeyEvent>) {
    log != [] ==>
      var before, e := log[..|log| - 1], log[|log| - 1];
      && WellTimed(before)
      && (before != [] ==> before[|before| - 1].time <= e.time)
      && (e.kind in {LongCall, Release} ==> e.time >= LastPress(before) + Delay(e.kind))
  }

  function Times(log: seq<KeyEvent>, kind: Kind): seq<nat> {
    if log == [] then [] else
      var e := log[|log| - 1];
      Times(log[..|log| - 1], kind) + (if e.kind == kind then [e.time] else [])
  }

  predicate Spaced(ts: seq<nat>, gap: nat) {
    forall i :: 0 < i < |ts| ==> ts[i - 1] + gap <= ts[i]
  }

  predicate LastAtMost(ts: seq<nat>, t: nat) {
    ts != [] ==> ts[|ts| - 1] <= t
  }

  lemma SpacedAppend(ts: seq<nat>, gap: nat, t: nat)
    requires Spaced(ts, gap) && (ts != [] ==> ts[|ts| - 1] + gap <= t)
    ensures Spaced(ts + [t], gap)
  {
  }

  lemma {:induction false} LogEnd(log: seq<KeyEvent>)
    requires WellTimed(log) && log != []
    ensures LastPress(log) <= log[|log| - 1].time
    ensures forall kind :: LastAtMost(Times(log, kind), log[|log| - 1].time)
  {
    if |log| > 1 {
      LogEnd(log[..|log| - 1]);
    } else {
      assert log[..0] == [];
    }
  }

  /** Releases are at least 50 ms apart, long calls at least 5000 ms. */
  lemma {:induction false} LogSpaced(log: seq<KeyEvent>)
    requires WellTimed(log) && PhaseOf(log) != Wrong
    ensures Spaced(Times(log, Release), 50)
    ensures Spaced(Times(log, LongCall), 5000)
    ensures PhaseOf(log) != Up ==> LastAtMost(Times(log, Release), LastPress(log))
    ensures PhaseOf(log) == Down ==> LastAtMost(Times(log, LongCall), LastPress(log))
    decreases |log|
  {
    if log != [] {
      var before, e := log[..|log| - 1], log[|log| - 1];
      LogSpaced(before);
      LogEnd(log);
      assert Times(before, Release) + [] == Times(before, Release);
      assert Times(before, LongCall) + [] == Times(before, LongCall);
      if before != [] {
        LogEnd(before);
      }
      match e.kind {
        case Press =>
        case LongCall => SpacedAppend(Times(before, LongCall), 5000, e.time);
        case Release => SpacedAppend(Times(before, Release), 50, e.time);
        case ShortCall =>
      }
    }
  }

  /** How many of the times lie between `a` and `b`. */
  function CountWithin(ts: seq<nat>, a: int, b: int): nat {
    if ts == [] then 0
    else CountWithin(ts[..|ts| - 1], a, b) + if a <= ts[|ts| - 1] <= b then 1 else 0
  }

  lemma {:induction false} CountBelow(ts: seq<nat>, gap: nat, a: int, b: int)
    requires Spaced(ts, gap) && (ts != [] ==> ts[|ts| - 1] < a)
    ensures CountWithin(ts, a, b) == 0
    decreases |ts|
  {
    if ts != [] {
      CountBelow(ts[..|ts| - 1], gap, a, b);
    }
  }

  lemma {:induction false} CountLower(ts: seq<nat>, gap: nat, a: int, b: int, b': int)
    requires Spaced(ts, gap) && (ts != [] ==> ts[|ts| - 1] <= b' <= b)
    ensures CountWithin(ts, a, b) == CountWithin(ts, a, b')
    decreases |ts|
  {
    if ts != [] {
      CountLower(ts[..|ts| - 1], gap, a, b, b');
    }
  }

  lemma OneMore(gap: nat, n: nat)
    ensures gap * (n + 1) == gap * n + gap
  {
  }

  /** A window of `t` milliseconds holds `n` events that are `gap` apart only when (n - 1) * gap <= t. */
  lemma {:induction false} WindowBound(ts: seq<nat>, gap: nat, a: nat, t: nat)
    requires Spaced(ts, gap)
    ensures gap * CountWithin(ts, a, a + t) <= t + gap
    decreases |ts|
  {
    if ts != [] {
      var before, z := ts[..|ts| - 1], ts[|ts| - 1];
      if z < a {
        CountBelow(ts, gap, a, a + t);
      } else if z > a + t {
        WindowBound(before, gap, a, t);
      } else if before != [] && before[|before| - 1] >= a {
        var t' := z - gap - a;
        CountLower(before, gap, a, a + t, a + t');
        WindowBound(before, gap, a, t');
        OneMore(gap, CountWithin(before, a, a + t'));
      } else {
        CountBelow(before, gap, a, a + t);
      }
    }
  }

  /** At most T/50 + 1 releases and T/5000 + 1 long calls fall into any window of T milliseconds. */
  lemma {:induction false} LogRates(log: seq<KeyEvent>, a: nat, t: nat)
    requires WellTimed(log) && PhaseOf(log) != Wrong
    ensures CountWithin(Times(log, Release), a, a + t) <= t / 50 + 1
    ensures CountWithin(Times(log, LongCall), a, a + t) <= t / 5000 + 1
  {
    LogSpaced(log);
    WindowBound(Times(log, Release), 50, a, t);
    WindowBound(Times(log, LongCall), 5000, a, t);
  }
}
