/** The long press: when `long_press` is called for a key that is held, and when it is not. */
module KeyLong {
  import opened KeyModel
  import opened KeySingle
  import opened KeyWords
  import opened KeyHistory
  import opened KeyProjection
  import opened KeyEvents
  import opened KeySettle
  import opened KeyAtomic
  import opened KeyLostEdges

  // ----- while the pin stays as it is -------------------------------------------------------------------

  /** Line 113 has read a high pin, and line 116 is still to come. */
  predicate LettingGo(k: K) {
    InTaskAt(k, {Up50Disarm5, Up50Level, Up50NegEdge})
  }

  /** The call has been made for the press, or will be made. */
  predicate WillCall(c: KeyConfig, k: K) {
    && c.longPress && !k.high && !LettingGo(k)
    && match PhaseOf(k.log)
       case Called => true
       case Down => k.key.key5s.Armed? || InTaskAt(k, {Long5Disarm, Long5Test, Long5Call})
       case _ => false
  }

  /** The call has not been made for the press, and will not be made. */
  predicate WontCall(c: KeyConfig, k: K) {
    && PhaseOf(k.log) != Called && k.task != In(Long5Call)
    && (!c.longPress || k.high || LettingGo(k) || (Unserved(k) && PhaseOf(k.log) == Up))
  }

  lemma {:induction false} CallIsr(c: KeyConfig, k: K)
    requires Control(k) && PhaseInv(k) && !k.isr.Out?
    ensures WillCall(c, k) ==> WillCall(c, KIsrStatement(k))
    ensures WontCall(c, k) ==> WontCall(c, KIsrStatement(k))
  {
    Logged(k.log, KeyEvent(Press, k.now));
    hide PhaseOf;
  }

  lemma {:induction false} WillCallTask(c: KeyConfig, k: K)
    requires Control(k) && PhaseInv(k) && k.isr.Out? && k.task.In? && WillCall(c, k)
    ensures WillCall(c, KTaskStatement(c, k))
  {
    TaskPhase(c, k);
    hide PhaseOf, Control;
  }

  lemma {:induction false} TaskPhase(c: KeyConfig, k: K)
    requires k.task.In?
    ensures PhaseOf(KTaskStatement(c, k).log) ==
      match k.task.pc
      case Up50Level => PhaseStep(PhaseOf(k.log), Release)
      case Long5Call => PhaseStep(PhaseOf(k.log), LongCall)
      case _ => PhaseOf(k.log)
  {
    hide PhaseOf;
    match k.task.pc {
      case Up50Level => Logged(k.log, KeyEvent(Release, k.now));
      case Up50Call => Logged(k.log, KeyEvent(ShortCall, k.now));
      case Long5Call => Logged(k.log, KeyEvent(LongCall, k.now));
      case _ => assert KTaskStatement(c, k).log == k.log;
    }
  }

  lemma {:induction false} WontCallTask(c: KeyConfig, k: K)
    requires Control(k) && PhaseInv(k) && k.isr.Out? && k.task.In? && WontCall(c, k)
    ensures WontCall(c, KTaskStatement(c, k))
  {
    TaskPhase(c, k);
    hide PhaseOf;
    if Unserved(k) {
      UnservedStep(c, k, KTaskStep);
    } else if k.task == In(Up50NegEdge) {
      AfterNegEdge(c, k);
    }
    hide Control, Unserved;
  }

  lemma AfterNegEdge(c: KeyConfig, k: K)
    requires Control(k) && k.isr.Out? && k.task == In(Up50NegEdge)
    ensures Unserved(KTaskStatement(c, k)) && k.key.level == 1
  {
  }

  lemma {:induction false} CallStep(c: KeyConfig, k: K, l: KLabel)
    requires Control(k) && PhaseInv(k) && KEnabled(k, l) && !l.KPin?
    ensures WillCall(c, k) ==> WillCall(c, KNext(c, k, l))
    ensures WontCall(c, k) ==> WontCall(c, KNext(c, k, l))
  {
    hide PhaseOf;
    match l {
      case KTick(_) =>
      case KEnter =>
      case KIsrStep => CallIsr(c, k);
      case KFire50 =>
      case KFire5 =>
      case KTaskStep =>
        if WillCall(c, k) {
          WillCallTask(c, k);
        }
        if WontCall(c, k) {
          WontCallTask(c, k);
        }
    }
  }

  lemma HistoryParts(c: KeyConfig, k: K)
    requires History(c, k)
    ensures Control(k) && PhaseInv(k)
  {
  }

  lemma {:induction false} CallRun(c: KeyConfig, k: K, run: seq<KLabel>)
    requires History(c, k) && KLegal(c, k, run) && NoPin(run)
    ensures WillCall(c, k) ==> WillCall(c, KAfter(c, k, run))
    ensures WontCall(c, k) ==> WontCall(c, KAfter(c, k, run))
    decreases |run|
  {
    hide History, Control, PhaseInv, WillCall, WontCall, KNext, KEnabled;
    if run != [] {
      assert !run[0].KPin? && NoPin(run[1..]);
      HistoryParts(c, k);
      CallStep(c, k, run[0]);
      HistoryStep(c, k, run[0]);
      CallRun(c, KNext(c, k, run[0]), run[1..]);
    }
  }

  lemma ArmedIsDown(c: KeyConfig, k: K)
    requires History(c, k) && k.key.key5s.Armed?
    ensures PhaseOf(k.log) == Down && k.task !in {In(Long5Call), In(Up50Level), In(Up50NegEdge)}
  {
  }

  /**
   * The 5 s timer of a press is running and the pin stays as it is.  Once the timer is no longer armed
   * and no callback runs, long_press has been called for that press if and only if it is installed,
   * the pin is low, and the key was not just being let go.
   */
  lemma {:induction false} CalledExactly(c: KeyConfig, k: K, run: seq<KLabel>)
    requires History(c, k) && k.key.key5s.Armed?
    requires KLegal(c, k, run) && NoPin(run)
    requires var k' := KAfter(c, k, run); k'.key.key5s == Idle && k'.task.Away?
    ensures PhaseOf(KAfter(c, k, run).log) == Called <==> c.longPress && !k.high && k.task != In(Up50Disarm5)
  {
    ArmedIsDown(c, k);
    CallRun(c, k, run);
    hide History, KLegal, KAfter, PhaseOf, Unserved;
  }

  /** In every run of the driver, for each key. */
  lemma {:induction false} EachKeyCalls(
      c: Config, s0: System, run0: seq<Label>, s: System, run: seq<Label>, j: nat)
    requires DistinctPins(c) && ReachedBy(c, s0, run0, s) && Legal(c, s, run) && j < |c|
    requires NoPinOf(run, c[j].gpio)
    requires |s.keys| == |c| && s.keys[j].key5s.Armed?
    requires var r := After(c, s, run);
      |r.keys| == |c| && r.keys[j].key5s == Idle && (r.task.InTask? ==> r.task.k != j)
    ensures var log := KeyLog(After(c, s, run).log, j);
      LastWas(log, Act, |log|, LongCall) <==>
        c[j].longPress && c[j].gpio !in s.gpio.high && s.task != InTask(j, Up50Disarm5)
  {
    KeyHistoryHolds(c, s0, run0, s, j);
    RunProjects(c, s, run, j);
    ProjNoPin(c, s, run, j);
    var k, ks := Proj(c, s, j), ProjRun(c, s, run, j);
    CalledExactly(c[j], k, ks);
    HistoryRun(c[j], k, ks);
    CalledIsLast(KeyLog(After(c, s, run).log, j));
  }

  lemma {:induction false} CalledIsLast(log: seq<KeyEvent>)
    requires PhaseOf(log) != Wrong
    ensures PhaseOf(log) == Called <==> LastWas(log, Act, |log|, LongCall)
  {
    PhaseIsLast(log);
    forall i, i' | LastBefore(log, Act, i, |log|) && LastBefore(log, Act, i', |log|) ensures i == i' {
    }
  }

  // ----- runs in which the functions are called -----------------------------------------------------------

  /** The timer expires, and the callback runs to its end. */
  function LongSteps(c: KeyConfig, k: K): seq<KLabel>
    requires k.key.key5s.Armed?
  {
    var t := if k.key.key5s.due > k.now then k.key.key5s.due else k.now;
    [KTick(t - k.now)] + [KFire5] + TaskSteps(c, k.(key := k.key.(key5s := Idle), now := t, task := In(Long5Disarm)))
  }

  /** When nothing runs, a timer that expires leads to the call: at its due time, or now if that is past. */
  lemma {:induction false} LongOnTime(c: KeyConfig, k: K)
    requires k.isr.Out? && k.task.Away? && k.key.key5s.Armed?
    ensures var t := if k.key.key5s.due > k.now then k.key.key5s.due else k.now;
      Follows(c, k, LongSteps(c, k),
              k.(key := k.key.(key5s := Idle), now := t,
                 log := k.log + if !k.high && c.longPress then [KeyEvent(LongCall, t)] else []))
  {
    var t := if k.key.key5s.due > k.now then k.key.key5s.due else k.now;
    var k1 := k.(now := t);
    var k2 := k1.(key := k.key.(key5s := Idle), task := In(Long5Disarm));
    FollowsOne(c, k, KTick(t - k.now));
    hide Follows;
    Then(c, k, [KTick(t - k.now)], k1, KFire5);
    TaskStepsFinish(c, k2);
    FinishLong(c, k2);
    FollowsAppend(c, k, [KTick(t - k.now)] + [KFire5], k2, TaskSteps(c, k2), FinishTask(c, k2));
  }

  /** The key goes down at time 0 and stays down. */
  function LongPressRun(c: KeyConfig): seq<KLabel> {
    HeldRun() + LongSteps(c, HELD)
  }

  /** The key goes down at time 0, comes up at once, and the check 50 ms later finds it up. */
  function ShortPressRun(c: KeyConfig): seq<KLabel> {
    ReadingRun() + [KTaskStep] + TaskSteps(c, READING.(task := In(Up50Disarm5)))
  }

  /** A run after `key_init` with this history ends with nothing running and the 5 s timer stopped. */
  ghost predicate Records(c: KeyConfig, run: seq<KLabel>, log: seq<KeyEvent>) {
    KLegal(c, RELEASED, run) &&
    var k := KAfter(c, RELEASED, run);
    AtRest(k) && k.key.key5s == Idle && k.log == log
  }

  lemma {:induction false} LongPressRecords(c: KeyConfig)
    ensures Records(c, LongPressRun(c),
                    [KeyEvent(Press, 0)] + if c.longPress then [KeyEvent(LongCall, 5000)] else [])
  {
    HeldFollows(c);
    LongOnTime(c, HELD);
    hide Follows, LongSteps, HeldRun, KLegal, KAfter;
    var k := HELD.(key := Key(0, Idle, Idle), now := 5000,
                   log := HELD.log + if c.longPress then [KeyEvent(LongCall, 5000)] else []);
    FollowsAppend(c, RELEASED, HeldRun(), HELD, LongSteps(c, HELD), k);
    FollowsEnd(c, RELEASED, LongPressRun(c), k);
  }

  lemma {:induction false} ShortPressRecords(c: KeyConfig)
    ensures Records(c, ShortPressRun(c),
                    [KeyEvent(Press, 0), KeyEvent(Release, 50)]
                    + if c.shortPress then [KeyEvent(ShortCall, 50)] else [])
  {
    var k := READING.(task := In(Up50Disarm5));
    var run := ReadingRun();
    ReadingFollows(c);
    hide Follows, ReadingRun, KLegal, KAfter, FinishTask, TaskSteps;
    Then(c, RELEASED, run, READING, KTaskStep);
    TaskStepsFinish(c, k);
    FinishUp(c, k);
    FollowsAppend(c, RELEASED, run + [KTaskStep], k, TaskSteps(c, k), FinishTask(c, k));
    FollowsEnd(c, RELEASED, ShortPressRun(c), FinishTask(c, k));
    assert [KeyEvent(Press, 0)] + [KeyEvent(Release, 50)] == [KeyEvent(Press, 0), KeyEvent(Release, 50)];
  }

  /** Both runs happen in a driver with any one key. */
  lemma {:induction false} RecordedInDriver(c: KeyConfig, long: bool) returns (run: seq<Label>, s: System)
    ensures ReachedBy([c], StartOf(c), run, s) && KeyAtRest([c], s, 0)
    ensures KeyLog(s.log, 0) ==
      if long then [KeyEvent(Press, 0)] + if c.longPress then [KeyEvent(LongCall, 5000)] else []
      else [KeyEvent(Press, 0), KeyEvent(Release, 50)] + if c.shortPress then [KeyEvent(ShortCall, 50)] else []
  {
    LongPressRecords(c);
    ShortPressRecords(c);
    hide LongPressRun, ShortPressRun, KLegal, KAfter;
    assert Proj([c], StartOf(c), 0) == RELEASED;
    run, s := RunRealised(c, StartOf(c), if long then LongPressRun(c) else ShortPressRun(c));
  }
}
