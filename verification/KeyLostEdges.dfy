/** Runs of the driver, from the state that `key_init` leaves, in which an edge is lost. */
module KeyLostEdges {
  import opened KeyModel
  import opened KeySingle
  import opened KeyHistory
  import opened KeyProjection
  import opened KeyAtomic
  import opened KeySettle

  // ----- a single key's runs are runs of the driver -------------------------------------------------

  /** The handler has left the only key exactly when it has returned. */
  predicate Alone(c: KeyConfig, s: System) {
    WellFormed([c], s) && (s.isr.InIsr? ==> s.isr.i == 0)
  }

  function LabelOf(c: KeyConfig, l: KLabel): Label {
    match l
    case KPin(level) => Pin(c.gpio, level)
    case KTick(ms) => Tick(ms)
    case KEnter => EnterIsr
    case KIsrStep => IsrStep
    case KFire50 => Fire50(0)
    case KFire5 => Fire5(0)
    case KTaskStep => TaskStep
  }

  ghost predicate Leads(c: Config, s: System, run: seq<Label>, s': System) {
    Legal(c, s, run) && After(c, s, run) == s'
  }

  lemma {:induction false} LeadsOne(c: Config, s: System, l: Label)
    requires Enabled(c, s, l)
    ensures Leads(c, s, [l], Next(c, s, l))
  {
    assert [l][1..] == [];
  }

  lemma {:induction false} LeadsAppend(c: Config, s: System, xs: seq<Label>, s': System, ys: seq<Label>, s'': System)
    requires Leads(c, s, xs, s') && Leads(c, s', ys, s'')
    ensures Leads(c, s, xs + ys, s'')
    decreases |xs|
  {
    hide Enabled, Next;
    if xs == [] {
      assert xs + ys == ys;
    } else {
      assert (xs + ys)[1..] == xs[1..] + ys;
      LeadsAppend(c, Next(c, s, xs[0]), xs[1..], s', ys, s'');
    }
  }

  lemma LabelEnabled(c: KeyConfig, s: System, l: KLabel)
    requires Alone(c, s) && KEnabled(Proj([c], s, 0), l)
    ensures Enabled([c], s, LabelOf(c, l))
    ensures ProjLabel([c], s, LabelOf(c, l), 0) == [l]
  {
  }

  lemma {:induction false} StepRealised(c: KeyConfig, s: System, l: KLabel) returns (run: seq<Label>, s': System)
    requires Alone(c, s) && KEnabled(Proj([c], s, 0), l)
    ensures Leads([c], s, run, s') && Alone(c, s')
    ensures Proj([c], s', 0) == KNext(c, Proj([c], s, 0), l)
  {
    var l' := LabelOf(c, l);
    LabelEnabled(c, s, l);
    StepProjects([c], s, l', 0);
    FollowsIsOne(c, Proj([c], s, 0), l, Proj([c], Next([c], s, l'), 0));
    LeadsOne([c], s, l');
    run, s' := [l'], Next([c], s, l');
    if s'.isr.InIsr? && s'.isr.i == 1 {
      LeadsOne([c], s', IsrStep);
      LeadsAppend([c], s, run, s', [IsrStep], Next([c], s', IsrStep));
      run, s' := run + [IsrStep], Next([c], s', IsrStep);
    }
  }

  /** Every run of a key on its own is what that key sees of a run of the driver with one key. */
  lemma {:induction false} RunRealised(c: KeyConfig, s: System, ks: seq<KLabel>)
    returns (run: seq<Label>, s': System)
    requires Alone(c, s) && KLegal(c, Proj([c], s, 0), ks)
    ensures Leads([c], s, run, s') && Alone(c, s')
    ensures Proj([c], s', 0) == KAfter(c, Proj([c], s, 0), ks)
    decreases |ks|
  {
    hide Alone, Proj, KEnabled, KNext, Leads;
    if ks == [] {
      LeadsNone([c], s);
      run, s' := [], s;
    } else {
      var first, s1 := StepRealised(c, s, ks[0]);
      var rest, s2 := RunRealised(c, s1, ks[1..]);
      LeadsAppend([c], s, first, s1, rest, s2);
      run, s' := first + rest, s2;
    }
  }

  lemma LeadsNone(c: Config, s: System)
    ensures Leads(c, s, [], s)
  {
  }

  // ----- pieces of runs ---------------------------------------------------------------------------------

  /** The statements up to the end of the handler. */
  function IsrSteps(k: K): seq<KLabel>
    requires KOk(k)
    decreases if k.isr.Out? then 0 else if k.isr.Ahead? then 10 else Rank(k.isr.pc)
  {
    if k.isr.Out? then [] else [KIsrStep] + IsrSteps(KIsrStatement(k))
  }

  /** The statements up to the end of the callback. */
  function TaskSteps(c: KeyConfig, k: K): seq<KLabel>
    decreases if k.task.Away? then 0 else TaskRank(k.task.pc)
  {
    if k.task.Away? then [] else [KTaskStep] + TaskSteps(c, KTaskStatement(c, k))
  }

  lemma {:induction false} IsrStepsFinish(c: KeyConfig, k: K)
    requires KOk(k)
    ensures Follows(c, k, IsrSteps(k), FinishIsr(k))
    decreases if k.isr.Out? then 0 else if k.isr.Ahead? then 10 else Rank(k.isr.pc)
  {
    if k.isr.Out? {
      FollowsNone(c, k);
    } else {
      FollowsOne(c, k, KIsrStep);
      IsrStepsFinish(c, KIsrStatement(k));
      FollowsAppend(c, k, [KIsrStep], KIsrStatement(k), IsrSteps(KIsrStatement(k)), FinishIsr(k));
    }
  }

  lemma {:induction false} TaskStepsFinish(c: KeyConfig, k: K)
    requires KOk(k) && k.isr.Out?
    ensures Follows(c, k, TaskSteps(c, k), FinishTask(c, k))
    decreases if k.task.Away? then 0 else TaskRank(k.task.pc)
  {
    if k.task.Away? {
      FollowsNone(c, k);
    } else {
      FollowsOne(c, k, KTaskStep);
      TaskStepsFinish(c, KTaskStatement(c, k));
      FollowsAppend(c, k, [KTaskStep], KTaskStatement(c, k), TaskSteps(c, KTaskStatement(c, k)), FinishTask(c, k));
    }
  }

  lemma {:induction false} Then(c: KeyConfig, k0: K, run: seq<KLabel>, k: K, l: KLabel)
    requires Follows(c, k0, run, k) && KEnabled(k, l)
    ensures Follows(c, k0, run + [l], KNext(c, k, l))
  {
    FollowsOne(c, k, l);
    FollowsAppend(c, k0, run, k, [l], KNext(c, k, l));
  }

  function HandlerRun(k: K): seq<KLabel>
    requires KOk(k)
  {
    [KEnter] + IsrSteps(k.(isr := Ahead(k.status)))
  }

  lemma {:induction false} ThenHandler(c: KeyConfig, k0: K, run: seq<KLabel>, k: K)
    requires Follows(c, k0, run, k) && k.isr.Out?
    ensures Follows(c, k0, run + HandlerRun(k), FinishIsr(k.(isr := Ahead(k.status))))
  {
    var k1 := k.(isr := Ahead(k.status));
    FollowsOne(c, k, KEnter);
    IsrStepsFinish(c, k1);
    hide KEnabled, KNext, FinishIsr, IsrSteps;
    FollowsAppend(c, k, [KEnter], k1, IsrSteps(k1), FinishIsr(k1));
    FollowsAppend(c, k0, run, k, HandlerRun(k), FinishIsr(k1));
  }

  /** Just out of `key_init`, with the pin high. */
  const RELEASED := K(Key(1, Idle, Idle), NegEdge, false, true, Out, Away, 0, [])

  /** After the handler has served a falling edge at time 0. */
  const HELD := K(Key(0, Armed(5000), Idle), PosEdge, false, false, Out, Away, 0, [KeyEvent(Press, 0)])

  /** `key_50ms_cb` is about to read the pin of a key that has been let go. */
  const READING :=
    K(Key(0, Armed(5000), Idle), Disable, false, true, Out, In(Up50Test), 50, [KeyEvent(Press, 0)])

  function HeldRun(): seq<KLabel> {
    [KPin(false)] + HandlerRun(KSetPin(RELEASED, false))
  }

  function ReadingRun(): seq<KLabel> {
    HeldRun() + [KPin(true)] + HandlerRun(KSetPin(HELD, true)) + [KTick(50)] + [KFire50] + [KTaskStep]
  }

  lemma {:induction false} HeldFollows(c: KeyConfig)
    ensures Follows(c, RELEASED, HeldRun(), HELD)
  {
    var k := KSetPin(RELEASED, false);
    FollowsOne(c, RELEASED, KPin(false));
    ThenHandler(c, RELEASED, [KPin(false)], k);
    FinishPress(k.(isr := At(DisableIntr)));
    hide Follows;
    assert FinishIsr(k.(isr := Ahead(true))) == FinishIsr(k.(isr := At(DisableIntr)));
  }

  lemma {:induction false} ReadingFollows(c: KeyConfig)
    ensures Follows(c, RELEASED, ReadingRun(), READING)
  {
    var k := KSetPin(HELD, true);
    HeldFollows(c);
    hide Follows;
    var run := HeldRun();
    Then(c, RELEASED, run, HELD, KPin(true));
    run := run + [KPin(true)];
    ThenHandler(c, RELEASED, run, k);
    FinishRelease(k.(isr := At(DisableIntr)));
    assert FinishIsr(k.(isr := Ahead(true))) == FinishIsr(k.(isr := At(DisableIntr)));
    run := run + HandlerRun(k);
    var k1 := k.(key := Key(0, Armed(5000), Armed(50)), intr := Disable, status := false);
    Then(c, RELEASED, run, k1, KTick(50));
    Then(c, RELEASED, run + [KTick(50)], k1.(now := 50), KFire50);
    Then(c, RELEASED, run + [KTick(50)] + [KFire50], READING.(task := In(Up50Disarm)), KTaskStep);
  }

  // ----- the lost edges ------------------------------------------------------------------------------------

  /** Line 113 reads a high pin; then the key is pressed. */
  function PressLostRun(c: KeyConfig): seq<KLabel> {
    ReadingRun() + [KTaskStep] + [KPin(false)] + TaskSteps(c, READING.(task := In(Up50Disarm5), high := false))
  }

  /** Line 113 reads a low pin; then the key is let go. */
  function ReleaseLostRun(): seq<KLabel> {
    ReadingRun() + [KPin(false)] + [KTaskStep] + [KPin(true)] + [KTaskStep]
  }

  /** The key is pressed, and let go when the handler is about to disable the interrupt at line 141. */
  function GlitchLostRun(): seq<KLabel> {
    [KPin(false)] + [KEnter] + [KIsrStep] + [KPin(true)]
      + IsrSteps(KSetPin(RELEASED, false).(isr := At(DisableIntr), high := true))
  }

  /** A run after `key_init` that ends at rest with a level that contradicts the pin. */
  ghost predicate Loses(c: KeyConfig, run: seq<KLabel>, level: nat) {
    KLegal(c, RELEASED, run) &&
    var k := KAfter(c, RELEASED, run);
    AtRest(k) && k.key.level == level && k.high == (level == 0)
  }

  lemma {:induction false} PressLoses(c: KeyConfig)
    ensures Loses(c, PressLostRun(c), 1)
  {
    var k0 := READING.(task := In(Up50Disarm5));
    var k1 := k0.(high := false);
    var run := ReadingRun();
    ReadingFollows(c);
    hide Follows, ReadingRun, KLegal, KAfter, FinishTask, TaskSteps;
    Then(c, RELEASED, run, READING, KTaskStep);
    Then(c, RELEASED, run + [KTaskStep], k0, KPin(false));
    TaskStepsFinish(c, k1);
    FinishUp(c, k1);
    FollowsAppend(c, RELEASED, run + [KTaskStep] + [KPin(false)], k1, TaskSteps(c, k1), FinishTask(c, k1));
    FollowsEnd(c, RELEASED, PressLostRun(c), FinishTask(c, k1));
  }

  lemma {:induction false} ReleaseLoses(c: KeyConfig)
    ensures Loses(c, ReleaseLostRun(), 0)
  {
    var k0 := READING.(high := false);
    var k1 := k0.(task := In(Up50PosEdge));
    var k2 := k1.(high := true);
    ReadingFollows(c);
    var run := ReadingRun();
    hide Follows, ReadingRun, KLegal, KAfter;
    Then(c, RELEASED, run, READING, KPin(false));
    Then(c, RELEASED, run + [KPin(false)], k0, KTaskStep);
    Then(c, RELEASED, run + [KPin(false)] + [KTaskStep], k1, KPin(true));
    Then(c, RELEASED, run + [KPin(false)] + [KTaskStep] + [KPin(true)], k2, KTaskStep);
    FollowsEnd(c, RELEASED, ReleaseLostRun(), KNext(c, k2, KTaskStep));
  }

  lemma {:induction false} GlitchLoses(c: KeyConfig)
    ensures Loses(c, GlitchLostRun(), 0)
  {
    var k0 := KSetPin(RELEASED, false);
    var k1 := k0.(isr := At(DisableIntr));
    var k2 := k1.(high := true);
    FollowsOne(c, RELEASED, KPin(false));
    hide Follows;
    var run: seq<KLabel> := [KPin(false)];
    Then(c, RELEASED, run, k0, KEnter);
    Then(c, RELEASED, run + [KEnter], k0.(isr := Ahead(true)), KIsrStep);
    Then(c, RELEASED, run + [KEnter] + [KIsrStep], k1, KPin(true));
    IsrStepsFinish(c, k2);
    FinishPress(k2);
    hide IsrSteps;
    FollowsAppend(c, RELEASED, run + [KEnter] + [KIsrStep] + [KPin(true)], k2, IsrSteps(k2), FinishIsr(k2));
    FollowsEnd(c, RELEASED, GlitchLostRun(), FinishIsr(k2));
  }

  lemma FollowsEnd(c: KeyConfig, k: K, run: seq<KLabel>, k': K)
    requires Follows(c, k, run, k')
    ensures KLegal(c, k, run) && KAfter(c, k, run) == k'
  {
  }

  /** The state after `key_init` of a driver with this one key, its pin high. */
  function StartOf(c: KeyConfig): System {
    System([Key(1, Idle, Idle)], Gpio(map[c.gpio := NegEdge], {}, {c.gpio}), NoIsr, NoTask, 0, [])
  }

  datatype Edge = PressInCheck | ReleaseInCheck | ReleaseInHandler

  function LostRun(c: KeyConfig, e: Edge): seq<KLabel> {
    match e
    case PressInCheck => PressLostRun(c)
    case ReleaseInCheck => ReleaseLostRun()
    case ReleaseInHandler => GlitchLostRun()
  }

  /**
   * In a driver with any one key each of the three edges is lost in some run after `key_init`, which
   * ends with nothing left to serve: released with the pin low, or held with the pin high.
   */
  lemma {:induction false} LostInDriver(c: KeyConfig, e: Edge) returns (run: seq<Label>, s: System)
    ensures ReachedBy([c], StartOf(c), run, s) && KeyAtRest([c], s, 0)
    ensures KLegal(c, RELEASED, LostRun(c, e)) && Proj([c], s, 0) == KAfter(c, RELEASED, LostRun(c, e))
    ensures s.keys[0].level == (if e.PressInCheck? then 1 else 0)
    ensures c.gpio in s.gpio.high <==> s.keys[0].level == 0
  {
    PressLoses(c);
    ReleaseLoses(c);
    GlitchLoses(c);
    hide PressLostRun, ReleaseLostRun, GlitchLostRun, KLegal, KAfter;
    assert Proj([c], StartOf(c), 0) == RELEASED;
    run, s := RunRealised(c, StartOf(c), LostRun(c, e));
  }
}
