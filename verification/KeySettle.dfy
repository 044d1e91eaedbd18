/**
 * Where a key comes to rest when its pin stays as it is: the exact condition, read off the state,
 * under which it ends as released, and the edges that fall between two statements and are lost.
 */
module KeySettle {
  import opened KeyModel
  import opened KeySingle
  import opened KeyHistory
  import opened KeyProjection

  /** The handler and the callbacks have nothing left to do for the key. */
  predicate AtRest(k: K) {
    k.isr.Out? && k.task.Away? && !k.status && k.key.key50ms == Idle
  }

  /** The key will count as released once everything is served, if its pin stays as it is. */
  predicate SettlesUp(k: K) {
    if k.task.In? && Checking(k.task.pc) then
      match k.task.pc
      case Up50Disarm => k.high
      case Up50Test => k.high
      case Up50PosEdge => false
      case _ => true
    else if k.isr.At? then k.high && ServedFromHeld(k)
    else if IdleMode(k) then !k.status
    else if HeldMode(k) then k.high && k.status
    else k.high
  }

  // ----- the condition is exact ---------------------------------------------------------------------

  lemma SettlesIsr(k: K)
    requires Control(k) && !k.isr.Out?
    ensures SettlesUp(KIsrStatement(k)) == SettlesUp(k)
  {
  }

  lemma SettlesTask(c: KeyConfig, k: K)
    requires Control(k) && k.isr.Out? && k.task.In?
    ensures SettlesUp(KTaskStatement(c, k)) == SettlesUp(k)
  {
  }

  lemma {:induction false} SettlesStep(c: KeyConfig, k: K, l: KLabel)
    requires Control(k) && KEnabled(k, l) && !l.KPin?
    ensures SettlesUp(KNext(c, k, l)) == SettlesUp(k)
  {
    match l {
      case KTick(_) =>
      case KEnter =>
      case KIsrStep => SettlesIsr(k);
      case KFire50 =>
      case KFire5 =>
      case KTaskStep => SettlesTask(c, k);
    }
  }

  lemma SettledLevel(k: K)
    requires Control(k) && AtRest(k)
    ensures Unserved(k)
    ensures k.key.level == 1 <==> SettlesUp(k)
  {
  }

  /**
   * From any state, in the middle of any statements, every run without a change of the pin
   * that brings the key to rest leaves it at level 1 if and only if the first state says so.
   */
  lemma {:induction false} Settles(c: KeyConfig, k: K, run: seq<KLabel>)
    requires Control(k) && KLegal(c, k, run) && NoPin(run) && AtRest(KAfter(c, k, run))
    ensures KAfter(c, k, run).key.level == 1 <==> SettlesUp(k)
    decreases |run|
  {
    hide Control, AtRest, SettlesUp, KNext, KEnabled;
    if run == [] {
      SettledLevel(k);
    } else {
      assert !run[0].KPin? && NoPin(run[1..]);
      SettlesStep(c, k, run[0]);
      ControlStep(c, k, run[0]);
      Settles(c, KNext(c, k, run[0]), run[1..]);
    }
  }

  // ----- what is left to do ----------------------------------------------------------------------------

  /** What the handler has left to do for the key, a check that it starts included. */
  function IsrWork(k: K): nat {
    match k.isr
    case Out => if k.status then 22 else 0
    case Ahead(hit) => if hit then 21 else if k.status then 22 else 0
    case At(pc) =>
      match pc
      case Test => 0
      case DisableIntr => 20
      case ClearStatus => 19
      case TestLevel => 18
      case Disarm5 => 4
      case Arm5 => 3
      case LevelDown => 2
      case SetPosEdge => 1
      case Disarm50 => 17
      case Arm50 => 16
  }

  function TimerWork(k: K): nat {
    if k.key.key50ms == Idle then 0 else if k.key.key50ms.due <= k.now then 7 else 8
  }

  function TaskWork(k: K): nat {
    match k.task
    case Away => 0
    case In(pc) =>
      match pc
      case Up50Disarm => 6
      case Up50Test => 5
      case Up50Disarm5 => 4
      case Up50Level => 3
      case Up50NegEdge => 2
      case Up50Call => 1
      case Up50PosEdge => 1
      case Long5Disarm => 3
      case Long5Test => 2
      case Long5Call => 1
  }

  function Work(k: K): nat {
    IsrWork(k) + TimerWork(k) + TaskWork(k)
  }

  /** The step brings the key closer to rest. */
  predicate Helps(k: K, l: KLabel) {
    match l
    case KPin(_) => false
    case KTick(ms) => k.key.key50ms.Armed? && k.now < k.key.key50ms.due <= k.now + ms
    case KEnter => k.status
    case KIsrStep => k.isr != Ahead(false)
    case KFire50 => true
    case KFire5 => false
    case KTaskStep => true
  }

  lemma IsrWorks(k: K)
    requires Control(k) && !k.isr.Out?
    ensures Work(KIsrStatement(k)) <= Work(k)
    ensures k.isr != Ahead(false) ==> Work(KIsrStatement(k)) < Work(k)
  {
  }

  lemma TaskWorks(c: KeyConfig, k: K)
    requires Control(k) && k.isr.Out? && k.task.In?
    ensures Work(KTaskStatement(c, k)) < Work(k)
  {
  }

  lemma {:induction false} Works(c: KeyConfig, k: K, l: KLabel)
    requires Control(k) && KEnabled(k, l) && !l.KPin? && l != KFire5
    ensures Work(KNext(c, k, l)) <= Work(k)
    ensures Helps(k, l) ==> Work(KNext(c, k, l)) < Work(k)
  {
    match l {
      case KTick(_) =>
      case KEnter =>
      case KIsrStep => IsrWorks(k);
      case KFire50 =>
      case KTaskStep => TaskWorks(c, k);
    }
  }

  // ----- edges that are lost --------------------------------------------------------------------------

  /**
   * The driver is about to set an interrupt type from what it has read of the pin before: for level
   * 1 between lines 113 and 116, for level 0 between lines 113 and 122 or between lines 139 and 152.
   */
  predicate Blind(k: K, level: nat) {
    if level == 1 then InTaskAt(k, {Up50Disarm5, Up50Level, Up50NegEdge})
    else ServedFromIdle(k) || InTaskAt(k, {Up50PosEdge})
  }

  /** The pin disagrees with the level, and nothing of that is left to be noticed. */
  predicate Missed(k: K, level: nat) {
    && k.high == (level == 0)
    && (Blind(k, level) || (Unserved(k) && k.key.level == level))
  }

  lemma MissedIsr(k: K, level: nat)
    requires Control(k) && Missed(k, level) && level <= 1 && !k.isr.Out?
    ensures Missed(KIsrStatement(k), level)
  {
  }

  lemma MissedTask(c: KeyConfig, k: K, level: nat)
    requires Control(k) && Missed(k, level) && level <= 1 && k.isr.Out? && k.task.In?
    ensures Missed(KTaskStatement(c, k), level)
  {
  }

  lemma {:induction false} MissedStep(c: KeyConfig, k: K, l: KLabel, level: nat)
    requires Control(k) && Missed(k, level) && level <= 1 && KEnabled(k, l) && !l.KPin?
    ensures Missed(KNext(c, k, l), level)
  {
    match l {
      case KTick(_) =>
      case KEnter =>
      case KIsrStep => MissedIsr(k, level);
      case KFire50 =>
      case KFire5 =>
      case KTaskStep => MissedTask(c, k, level);
    }
  }

  lemma {:induction false} MissedRun(c: KeyConfig, k: K, level: nat, run: seq<KLabel>)
    requires Control(k) && Missed(k, level) && level <= 1 && KLegal(c, k, run) && NoPin(run)
    ensures Missed(KAfter(c, k, run), level)
    decreases |run|
  {
    hide Control, Missed, KNext, KEnabled;
    if run != [] {
      assert !run[0].KPin? && NoPin(run[1..]);
      MissedStep(c, k, run[0], level);
      ControlStep(c, k, run[0]);
      MissedRun(c, KNext(c, k, run[0]), level, run[1..]);
    }
  }

  /**
   * A key pressed after line 113 has read its pin as high and before line 116 has set NEGEDGE is not
   * noticed: as soon as that line is done, and for as long as the pin stays low, the key counts as
   * released and nothing is left to be served.
   */
  lemma {:induction false} PressLost(c: KeyConfig, k: K, run: seq<KLabel>)
    requires Control(k) && InTaskAt(k, {Up50Disarm5, Up50Level, Up50NegEdge})
    requires KLegal(c, KSetPin(k, false), run) && NoPin(run)
    ensures var k' := KAfter(c, KSetPin(k, false), run);
      && !k'.high
      && (InTaskAt(k', {Up50Disarm5, Up50Level, Up50NegEdge}) || (Unserved(k') && k'.key.level == 1))
  {
    ControlPin(c, k, false);
    MissedRun(c, KSetPin(k, false), 1, run);
  }

  /**
   * A key let go after line 113 has read its pin as low and before line 122 has set POSEDGE, or while
   * the handler has not yet set POSEDGE at line 152 for its press, is not noticed: after that line,
   * and for as long as the pin stays high, the key counts as held and nothing is left to be served.
   */
  lemma {:induction false} ReleaseLost(c: KeyConfig, k: K, run: seq<KLabel>)
    requires Control(k) && (ServedFromIdle(k) || InTaskAt(k, {Up50PosEdge}))
    requires KLegal(c, KSetPin(k, true), run) && NoPin(run)
    ensures var k' := KAfter(c, KSetPin(k, true), run);
      && k'.high
      && (ServedFromIdle(k') || InTaskAt(k', {Up50PosEdge}) || (Unserved(k') && k'.key.level == 0))
  {
    ControlPin(c, k, true);
    MissedRun(c, KSetPin(k, true), 0, run);
  }

  // ----- the whole driver -------------------------------------------------------------------------------

  predicate NoPinOf(run: seq<Label>, id: nat) {
    forall i :: 0 <= i < |run| && run[i].Pin? ==> run[i].id != id
  }

  predicate KeyAtRest(c: Config, s: System, j: nat) {
    WellFormed(c, s) && j < |c| && AtRest(Proj(c, s, j))
  }

  lemma {:induction false} ProjNoPin(c: Config, s: System, run: seq<Label>, j: nat)
    requires Legal(c, s, run) && j < |c| && NoPinOf(run, c[j].gpio)
    ensures NoPin(ProjRun(c, s, run, j))
    decreases |run|
  {
    hide Enabled, Next;
    if run != [] {
      assert NoPinOf(run[1..], c[j].gpio);
      ProjNoPin(c, Next(c, s, run[0]), run[1..], j);
    }
  }

  /**
   * In every reachable state of the driver with any number of keys: if the pin of a key stays as it
   * is until the key is at rest, its level is then 1 if and only if the state said so.
   */
  lemma {:induction false} EachKeySettles(
      c: Config, s0: System, run0: seq<Label>, s: System, run: seq<Label>, j: nat)
    requires DistinctPins(c) && ReachedBy(c, s0, run0, s) && Legal(c, s, run) && j < |c|
    requires NoPinOf(run, c[j].gpio) && KeyAtRest(c, After(c, s, run), j)
    ensures WellFormed(c, s)
    ensures After(c, s, run).keys[j].level == 1 <==> SettlesUp(Proj(c, s, j))
  {
    KeyHistoryHolds(c, s0, run0, s, j);
    RunProjects(c, s, run, j);
    ProjNoPin(c, s, run, j);
    Settles(c[j], Proj(c, s, j), ProjRun(c, s, run, j));
  }

  // ----- every key can come to rest ---------------------------------------------------------------------

  ghost predicate Controlled(c: Config, s: System) {
    DistinctPins(c) && WellFormed(c, s) && forall j :: 0 <= j < |c| ==> Control(Proj(c, s, j))
  }

  function SumOfWork(c: Config, s: System, n: nat): nat
    requires WellFormed(c, s) && n <= |c|
  {
    if n == 0 then 0 else SumOfWork(c, s, n - 1) + Work(Proj(c, s, n - 1))
  }

  /** The keys that the handler has not yet left. */
  function KeysAhead(c: Config, s: System): nat
    requires WellFormed(c, s)
  {
    if s.isr.InIsr? then |c| + 1 - s.isr.i else 0
  }

  /** The step brings key `j` closer to rest. */
  predicate HelpsKey(c: Config, s: System, l: Label, j: nat)
    requires Enabled(c, s, l) && j < |c|
  {
    var ls := ProjLabel(c, s, l, j);
    ls != [] && Helps(Proj(c, s, j), ls[0])
  }

  lemma {:induction false} KeyStep(c: Config, s: System, l: Label, j: nat)
    requires Controlled(c, s) && Enabled(c, s, l) && !l.Pin? && !l.Fire5? && j < |c|
    ensures Control(Proj(c, Next(c, s, l), j))
    ensures Work(Proj(c, Next(c, s, l), j)) <= Work(Proj(c, s, j))
    ensures HelpsKey(c, s, l, j) ==> Work(Proj(c, Next(c, s, l), j)) < Work(Proj(c, s, j))
  {
    var k, k', ls := Proj(c, s, j), Proj(c, Next(c, s, l), j), ProjLabel(c, s, l, j);
    StepProjects(c, s, l, j);
    assert |ls| <= 1 && (ls != [] ==> !ls[0].KPin? && ls[0] != KFire5);
    hide Control, Next, KNext, KEnabled, DistinctPins, Follows, Proj, ProjLabel, Work, Helps;
    if ls == [] {
      FollowsIsNone(c[j], k, k');
    } else {
      assert ls == [ls[0]];
      FollowsIsOne(c[j], k, ls[0], k');
      ControlStep(c[j], k, ls[0]);
      Works(c[j], k, ls[0]);
    }
  }

  lemma {:induction false} SumDrops(c: Config, s: System, s': System, n: nat, j: nat)
    requires WellFormed(c, s) && WellFormed(c, s') && n <= |c|
    requires forall i :: 0 <= i < n ==> Work(Proj(c, s', i)) <= Work(Proj(c, s, i))
    ensures SumOfWork(c, s', n) <= SumOfWork(c, s, n)
    ensures j < n && Work(Proj(c, s', j)) < Work(Proj(c, s, j)) ==> SumOfWork(c, s', n) < SumOfWork(c, s, n)
  {
    hide Work, Proj, WellFormed;
    if n != 0 {
      SumDrops(c, s, s', n - 1, j);
    }
  }

  lemma {:induction false} AllStep(c: Config, s: System, l: Label, j: nat)
    requires Controlled(c, s) && Enabled(c, s, l) && !l.Pin? && !l.Fire5?
    ensures Controlled(c, Next(c, s, l))
    ensures SumOfWork(c, Next(c, s, l), |c|) <= SumOfWork(c, s, |c|)
    ensures j < |c| && HelpsKey(c, s, l, j) ==> SumOfWork(c, Next(c, s, l), |c|) < SumOfWork(c, s, |c|)
  {
    var s' := Next(c, s, l);
    forall i | 0 <= i < |c|
      ensures Control(Proj(c, s', i)) && Work(Proj(c, s', i)) <= Work(Proj(c, s, i))
      ensures HelpsKey(c, s, l, i) ==> Work(Proj(c, s', i)) < Work(Proj(c, s, i))
    {
      KeyStep(c, s, l, i);
    }
    hide Control, Proj, Work, HelpsKey, SumOfWork, Next, DistinctPins;
    SumDrops(c, s, s', |c|, j);
  }

  /** The handler first, then the callback, then the latched bits, then the timers. */
  lemma {:induction false} NextHelp(c: Config, s: System) returns (l: Label, j: nat)
    requires Controlled(c, s) && exists i :: 0 <= i < |c| && !AtRest(Proj(c, s, i))
    ensures Enabled(c, s, l) && !l.Pin? && !l.Fire5?
    ensures (j < |c| && HelpsKey(c, s, l, j)) || KeysAhead(c, Next(c, s, l)) < KeysAhead(c, s)
  {
    if s.isr.InIsr? {
      l, j := IsrStep, s.isr.i;
    } else if s.task.InTask? {
      l, j := TaskStep, s.task.k;
    } else {
      j :| 0 <= j < |c| && !AtRest(Proj(c, s, j));
      var t := s.keys[j].key50ms;
      if c[j].gpio in s.gpio.status {
        l := EnterIsr;
      } else if t.due > s.now {
        l := Tick(t.due - s.now);
      } else {
        l := Fire50(j);
      }
    }
  }

  /** From every state a run in which no pin changes brings all keys to rest. */
  lemma {:induction false} AllComeToRest(c: Config, s: System) returns (run: seq<Label>)
    requires Controlled(c, s)
    ensures Legal(c, s, run) && forall l <- run :: !l.Pin?
    ensures forall j :: 0 <= j < |c| ==> KeyAtRest(c, After(c, s, run), j)
    decreases SumOfWork(c, s, |c|), KeysAhead(c, s)
  {
    if i :| 0 <= i < |c| && !AtRest(Proj(c, s, i)) {
      var l, j := NextHelp(c, s);
      AllStep(c, s, l, j);
      hide Controlled, Enabled, Next, AtRest, Proj, SumOfWork, KeysAhead, WellFormed;
      var rest := AllComeToRest(c, Next(c, s, l));
      run := [l] + rest;
      assert run[1..] == rest;
    } else {
      run := [];
    }
  }

  /** So every reachable state has a run to rest, and each key's level is then what the state said. */
  lemma {:induction false} DriverSettles(c: Config, s0: System, run0: seq<Label>, s: System)
    returns (run: seq<Label>)
    requires DistinctPins(c) && ReachedBy(c, s0, run0, s)
    ensures WellFormed(c, s) && Legal(c, s, run) && forall l <- run :: !l.Pin?
    ensures forall j :: 0 <= j < |c| ==>
      KeyAtRest(c, After(c, s, run), j) &&
      (After(c, s, run).keys[j].level == 1 <==> SettlesUp(Proj(c, s, j)))
  {
    forall j | 0 <= j < |c| ensures WellFormed(c, s) && Control(Proj(c, s, j)) {
      KeyHistoryHolds(c, s0, run0, s, j);
    }
    LegalEnd(c, s0, run0);
    hide Control;
    run := AllComeToRest(c, s);
    LegalEnd(c, s, run);
    forall j | 0 <= j < |c|
      ensures After(c, s, run).keys[j].level == 1 <==> SettlesUp(Proj(c, s, j))
    {
      NoPinsAtAll(run, c[j].gpio);
      EachKeySettles(c, s0, run0, s, run, j);
    }
  }

  lemma NoPinsAtAll(run: seq<Label>, id: nat)
    requires forall l <- run :: !l.Pin?
    ensures NoPinOf(run, id)
  {
  }
}
