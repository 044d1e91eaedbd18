/** The order and the distances of a key's events, in terms of positions in its history. */
module KeyEvents {
  import opened KeyModel
  import opened KeySingle
  import opened KeyWords
  import opened KeyHistory
  import opened KeyProjection

  /** The events that tell how the key is held; calls of short_press do not. */
  predicate Act(kind: Kind) {
    kind != ShortCall
  }

  /** The releases and their calls. */
  predicate Answer(kind: Kind) {
    kind == Release || kind == ShortCall
  }

  /** Position `i` holds the last event of some kinds before position `j`. */
  ghost predicate LastBefore(log: seq<KeyEvent>, counts: Kind -> bool, i: int, j: nat) {
    0 <= i < j <= |log| && counts(log[i].kind) && forall m :: i < m < j ==> !counts(log[m].kind)
  }

  ghost predicate NoneBefore(log: seq<KeyEvent>, counts: Kind -> bool, j: nat) {
    j <= |log| && forall m :: 0 <= m < j ==> !counts(log[m].kind)
  }

  /** Before position `j` the last event of those kinds is a `kind`. */
  ghost predicate LastWas(log: seq<KeyEvent>, counts: Kind -> bool, j: nat, kind: Kind) {
    exists i :: LastBefore(log, counts, i, j) && log[i].kind == kind
  }

  lemma {:induction false} Extend(log: seq<KeyEvent>, e: KeyEvent, counts: Kind -> bool, j: nat)
    requires j <= |log|
    ensures NoneBefore(log + [e], counts, j) <==> NoneBefore(log, counts, j)
    ensures forall kind :: LastWas(log + [e], counts, j, kind) <==> LastWas(log, counts, j, kind)
  {
    var l := log + [e];
    assert forall m :: 0 <= m < |log| ==> l[m] == log[m];
    forall kind ensures LastWas(l, counts, j, kind) <==> LastWas(log, counts, j, kind) {
      if i :| LastBefore(log, counts, i, j) && log[i].kind == kind {
        assert LastBefore(l, counts, i, j);
      }
      if i :| LastBefore(l, counts, i, j) && l[i].kind == kind {
        assert LastBefore(log, counts, i, j);
      }
    }
  }

  lemma {:induction false} ExtendLast(log: seq<KeyEvent>, e: KeyEvent, counts: Kind -> bool)
    ensures counts(e.kind) ==> LastWas(log + [e], counts, |log| + 1, e.kind)
    ensures !counts(e.kind) ==>
      && (NoneBefore(log + [e], counts, |log| + 1) <==> NoneBefore(log, counts, |log|))
      && forall kind :: LastWas(log, counts, |log|, kind) ==> LastWas(log + [e], counts, |log| + 1, kind)
  {
    var l := log + [e];
    assert forall m :: 0 <= m < |log| ==> l[m] == log[m];
    if counts(e.kind) {
      assert LastBefore(l, counts, |log|, |log| + 1);
    } else {
      forall kind | LastWas(log, counts, |log|, kind) ensures LastWas(l, counts, |log| + 1, kind) {
        var i :| LastBefore(log, counts, i, |log|) && log[i].kind == kind;
        assert LastBefore(l, counts, i, |log| + 1);
      }
    }
  }

  /** The phase says which event was the last one. */
  lemma {:induction false} PhaseIsLast(log: seq<KeyEvent>)
    requires PhaseOf(log) != Wrong
    ensures PhaseOf(log) == Down ==> LastWas(log, Act, |log|, Press)
    ensures PhaseOf(log) == Called ==> LastWas(log, Act, |log|, LongCall)
    ensures PhaseOf(log) == Up ==> NoneBefore(log, Act, |log|) || LastWas(log, Act, |log|, Release)
  {
    hide LastBefore, LastWas, NoneBefore;
    if log == [] {
      NothingBefore(Act);
    } else {
      var before, e := log[..|log| - 1], log[|log| - 1];
      assert log == before + [e];
      PhaseIsLast(before);
      ExtendLast(before, e, Act);
    }
  }

  lemma NothingBefore(counts: Kind -> bool)
    ensures NoneBefore([], counts, 0)
  {
  }

  lemma {:induction false} DebtIsLast(log: seq<KeyEvent>)
    requires DebtOf(log) != Bad
    ensures DebtOf(log) == Owed ==> LastWas(log, Answer, |log|, Release)
    ensures DebtOf(log) == Quiet ==> NoneBefore(log, Answer, |log|) || LastWas(log, Answer, |log|, ShortCall)
  {
    hide LastBefore, LastWas, NoneBefore;
    if log == [] {
      NothingBefore(Answer);
    } else {
      var before, e := log[..|log| - 1], log[|log| - 1];
      assert log == before + [e];
      DebtIsLast(before);
      ExtendLast(before, e, Answer);
    }
  }

  /** What may come before an event. */
  ghost predicate InPlace(log: seq<KeyEvent>, j: nat)
    requires j < |log|
  {
    match log[j].kind
    case Press => NoneBefore(log, Act, j) || LastWas(log, Act, j, Release)
    case LongCall => LastWas(log, Act, j, Press)
    case Release => LastWas(log, Act, j, Press) || LastWas(log, Act, j, LongCall)
    case ShortCall => true
  }

  lemma {:induction false} AllInPlace(log: seq<KeyEvent>, j: nat)
    requires PhaseOf(log) != Wrong && j < |log|
    ensures InPlace(log, j)
    decreases |log|
  {
    hide LastBefore, LastWas, NoneBefore;
    var before, e := log[..|log| - 1], log[|log| - 1];
    assert log == before + [e];
    PhaseIsLast(before);
    Extend(before, e, Act, j);
    if j < |before| {
      AllInPlace(before, j);
    }
  }

  /** A release comes after the call for the one before, and a call after its release. */
  ghost predicate Answered(log: seq<KeyEvent>, j: nat)
    requires j < |log|
  {
    match log[j].kind
    case Release => NoneBefore(log, Answer, j) || LastWas(log, Answer, j, ShortCall)
    case ShortCall => LastWas(log, Answer, j, Release)
    case _ => true
  }

  lemma {:induction false} AllAnswered(log: seq<KeyEvent>, j: nat)
    requires DebtOf(log) != Bad && j < |log|
    ensures Answered(log, j)
    decreases |log|
  {
    hide LastBefore, LastWas, NoneBefore;
    var before, e := log[..|log| - 1], log[|log| - 1];
    assert log == before + [e];
    DebtIsLast(before);
    Extend(before, e, Answer, j);
    if j < |before| {
      AllAnswered(before, j);
    }
  }

  // ----- times ----------------------------------------------------------------------------------

  predicate IsPress(kind: Kind) {
    kind == Press
  }

  /** At least `delay` after the last press before it. */
  ghost predicate Later(log: seq<KeyEvent>, j: nat, delay: nat)
    requires j < |log|
  {
    exists i :: LastBefore(log, IsPress, i, j) && log[j].time >= log[i].time + delay
  }

  lemma {:induction false} LastPressAt(log: seq<KeyEvent>)
    ensures NoneBefore(log, IsPress, |log|) ||
      exists i :: LastBefore(log, IsPress, i, |log|) && log[i].time == LastPress(log)
  {
    if log != [] {
      var before, e := log[..|log| - 1], log[|log| - 1];
      LastPressAt(before);
      if e.kind == Press {
        assert LastBefore(log, IsPress, |log| - 1, |log|);
      } else if i :| LastBefore(before, IsPress, i, |before|) && before[i].time == LastPress(before) {
        assert LastBefore(log, IsPress, i, |log|);
      }
    }
  }

  lemma {:induction false} PressedBefore(log: seq<KeyEvent>)
    requires PhaseOf(log) == Down || PhaseOf(log) == Called
    ensures !NoneBefore(log, IsPress, |log|)
  {
    var before, e := log[..|log| - 1], log[|log| - 1];
    if e.kind != Press {
      PressedBefore(before);
      var m :| 0 <= m < |before| && IsPress(before[m].kind);
      assert IsPress(log[m].kind);
    } else {
      assert IsPress(log[|log| - 1].kind);
    }
  }

  lemma {:induction false} AllLater(log: seq<KeyEvent>, j: nat)
    requires PhaseOf(log) != Wrong && WellTimed(log) && j < |log|
    ensures log[j].kind == LongCall ==> Later(log, j, 5000)
    ensures log[j].kind == Release ==> Later(log, j, 50)
    decreases |log|
  {
    var before, e := log[..|log| - 1], log[|log| - 1];
    if j < |before| {
      AllLater(before, j);
      assert forall i :: LastBefore(before, IsPress, i, j) ==> LastBefore(log, IsPress, i, j);
    } else if e.kind == LongCall || e.kind == Release {
      PressedBefore(before);
      LastPressAt(before);
      var i :| LastBefore(before, IsPress, i, |before|) && before[i].time == LastPress(before);
      assert LastBefore(log, IsPress, i, j);
    }
  }

  predicate AllUpTo(log: seq<KeyEvent>, kind: Kind, t: nat) {
    forall i :: 0 <= i < |log| && log[i].kind == kind ==> log[i].time <= t
  }

  lemma {:induction false} UpToEnd(log: seq<KeyEvent>, kind: Kind)
    requires WellTimed(log) && log != []
    ensures AllUpTo(log, kind, log[|log| - 1].time)
  {
    var before := log[..|log| - 1];
    if before != [] {
      UpToEnd(before, kind);
    }
    assert forall i :: 0 <= i < |before| ==> log[i] == before[i];
  }

  /** The releases and long calls of former presses are not later than the press that is held. */
  lemma {:induction false} UpToPress(log: seq<KeyEvent>)
    requires WellTimed(log) && PhaseOf(log) != Wrong
    ensures PhaseOf(log) != Up ==> AllUpTo(log, Release, LastPress(log))
    ensures PhaseOf(log) == Down ==> AllUpTo(log, LongCall, LastPress(log))
  {
    if log != [] {
      var before, e := log[..|log| - 1], log[|log| - 1];
      UpToPress(before);
      assert forall i :: 0 <= i < |before| ==> log[i] == before[i];
      if e.kind == Press {
        UpToEnd(log, Release);
        UpToEnd(log, LongCall);
      }
    }
  }

  /** Two releases are at least 50 ms apart, two long calls at least 5000 ms. */
  lemma {:induction false} Gaps(log: seq<KeyEvent>, i: nat, j: nat)
    requires WellTimed(log) && PhaseOf(log) != Wrong && i < j < |log| && log[i].kind == log[j].kind
    ensures log[j].kind == Release ==> log[j].time >= log[i].time + 50
    ensures log[j].kind == LongCall ==> log[j].time >= log[i].time + 5000
    decreases |log|
  {
    var before := log[..|log| - 1];
    assert log[i] == before[i];
    if j < |before| {
      Gaps(before, i, j);
    } else {
      UpToPress(before);
    }
  }

  /** The same in every run of the driver, for each key. */
  lemma {:induction false} EventGaps(c: Config, s0: System, run: seq<Label>, s: System, j: nat, i: nat, n: nat)
    requires DistinctPins(c) && ReachedBy(c, s0, run, s) && j < |c|
    requires i < n < |KeyLog(s.log, j)| && KeyLog(s.log, j)[i].kind == KeyLog(s.log, j)[n].kind
    ensures var e, f := KeyLog(s.log, j)[i], KeyLog(s.log, j)[n];
      && (f.kind == Release ==> f.time >= e.time + 50)
      && (f.kind == LongCall ==> f.time >= e.time + 5000)
  {
    KeyHistoryHolds(c, s0, run, s, j);
    Gaps(KeyLog(s.log, j), i, n);
  }

  /**
   * In every run, event by event: a press comes first or after a release; a long call comes after a
   * press, 5000 ms later at the earliest; a release comes after a press or a long call, 50 ms after
   * the press; and with short_press installed releases and calls alternate.
   */
  lemma {:induction false} EventsInPlace(c: Config, s0: System, run: seq<Label>, s: System, j: nat, n: nat)
    requires DistinctPins(c) && ReachedBy(c, s0, run, s) && j < |c| && n < |KeyLog(s.log, j)|
    ensures var log := KeyLog(s.log, j);
      && InPlace(log, n)
      && (log[n].kind == LongCall ==> Later(log, n, 5000))
      && (log[n].kind == Release ==> Later(log, n, 50))
      && (c[j].shortPress ==> Answered(log, n))
  {
    KeyHistoryHolds(c, s0, run, s, j);
    hide InPlace, Later, Answered;
    AllInPlace(KeyLog(s.log, j), n);
    AllLater(KeyLog(s.log, j), n);
    if c[j].shortPress {
      AllAnswered(KeyLog(s.log, j), n);
    }
  }
}
