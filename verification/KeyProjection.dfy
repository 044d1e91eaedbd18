/**
 * Any number of keys: each key sees a legal run of its own, so what holds for one key holds for
 * every key of every run.
 */
module KeyProjection {
  import opened KeyModel
  import opened KeySingle
  import opened KeyWords
  import opened KeyHistory

  /** The events of one key. */
  function KeyLog(log: seq<Event>, j: nat): seq<KeyEvent> {
    if log == [] then [] else
      var e := log[|log| - 1];
      KeyLog(log[..|log| - 1], j) + (if e.key == j then [KeyEvent(e.kind, e.time)] else [])
  }

  lemma {:induction false} KeyLogAppend(log: seq<Event>, e: Event, j: nat)
    ensures KeyLog(log + [e], j) == KeyLog(log, j) + if e.key == j then [KeyEvent(e.kind, e.time)] else []
  {
    assert (log + [e])[..|log|] == log;
  }

  function ProjIsr(isr: Isr, id: nat, j: nat): KIsr {
    if isr.NoIsr? || isr.i > j then Out
    else if isr.i < j || isr.pc == Test then Ahead(id in isr.snap)
    else At(isr.pc)
  }

  function ProjTask(task: Task, j: nat): KTask {
    if task.InTask? && task.k == j then In(task.pc) else Away
  }

  /** The system as key `j` sees it. */
  function Proj(c: Config, s: System, j: nat): K
    requires WellFormed(c, s) && j < |c|
  {
    var id := c[j].gpio;
    K(s.keys[j], Intr(s.gpio, id), id in s.gpio.status, id in s.gpio.high,
      ProjIsr(s.isr, id, j), ProjTask(s.task, j), s.now, KeyLog(s.log, j))
  }

  /** What a step of the system is for key `j`: one step of its own, or none. */
  function ProjLabel(c: Config, s: System, l: Label, j: nat): seq<KLabel>
    requires Enabled(c, s, l) && j < |c|
  {
    match l
    case Pin(id, level) => if id == c[j].gpio then [KPin(level)] else []
    case Tick(ms) => [KTick(ms)]
    case EnterIsr => [KEnter]
    case IsrStep => if s.isr.i == j then [KIsrStep] else []
    case Fire50(k) => if k == j then [KFire50] else []
    case Fire5(k) => if k == j then [KFire5] else []
    case TaskStep => if s.task.k == j then [KTaskStep] else []
  }

  /** A step of the system as a run of at most one step of key `j`. */
  ghost predicate Follows(c: KeyConfig, k: K, run: seq<KLabel>, k': K) {
    KLegal(c, k, run) && KAfter(c, k, run) == k'
  }

  lemma {:induction false} FollowsOne(c: KeyConfig, k: K, l: KLabel)
    requires KEnabled(k, l)
    ensures Follows(c, k, [l], KNext(c, k, l))
  {
    assert [l][1..] == [];
  }

  lemma FollowsNone(c: KeyConfig, k: K)
    ensures Follows(c, k, [], k)
  {
  }

  /** A handler statement for the key itself. */
  lemma {:induction false} OwnIsr(c: Config, s: System, j: nat)
    requires Enabled(c, s, IsrStep) && j < |c| && s.isr.i == j
    ensures KEnabled(Proj(c, s, j), KIsrStep)
    ensures Proj(c, Next(c, s, IsrStep), j) == KNext(c[j], Proj(c, s, j), KIsrStep)
  {
    hide KeyLog;
    if s.isr.pc == Arm5 {
      OwnIsrLogs(c, s, j);
    } else {
      assert Next(c, s, IsrStep).log == s.log;
    }
  }

  lemma {:induction false} OwnIsrLogs(c: Config, s: System, j: nat)
    requires Enabled(c, s, IsrStep) && j < |c| && s.isr.i == j && s.isr.pc == Arm5
    ensures Proj(c, Next(c, s, IsrStep), j) == KNext(c[j], Proj(c, s, j), KIsrStep)
  {
    KeyLogAppend(s.log, Event(j, Press, s.now), j);
    hide KeyLog;
  }

  /** A handler statement for another key, which has another pin. */
  lemma {:induction false} OtherIsr(c: Config, s: System, j: nat)
    requires Enabled(c, s, IsrStep) && j < |c| && s.isr.i != j
    requires s.isr.i < |c| ==> c[s.isr.i].gpio != c[j].gpio
    ensures Proj(c, Next(c, s, IsrStep), j) == Proj(c, s, j)
  {
    hide KeyLog;
    if s.isr.pc == Arm5 {
      OtherIsrLogs(c, s, j);
    } else {
      assert Next(c, s, IsrStep).log == s.log;
    }
  }

  lemma {:induction false} OtherIsrLogs(c: Config, s: System, j: nat)
    requires Enabled(c, s, IsrStep) && j < |c| && s.isr.i != j && s.isr.pc == Arm5
    ensures Proj(c, Next(c, s, IsrStep), j) == Proj(c, s, j)
  {
    KeyLogAppend(s.log, Event(s.isr.i, Press, s.now), j);
    hide KeyLog;
  }

  predicate Logs(pc: TaskPc) {
    pc.Up50Level? || pc.Up50Call? || pc.Long5Call?
  }

  function KindOf(pc: TaskPc): Kind
    requires Logs(pc)
  {
    match pc
    case Up50Level => Release
    case Up50Call => ShortCall
    case Long5Call => LongCall
  }

  /** A callback statement for the key itself. */
  lemma {:induction false} OwnTask(c: Config, s: System, j: nat)
    requires Enabled(c, s, TaskStep) && j < |c| && s.task.k == j
    ensures KEnabled(Proj(c, s, j), KTaskStep)
    ensures Proj(c, Next(c, s, TaskStep), j) == KNext(c[j], Proj(c, s, j), KTaskStep)
  {
    hide KeyLog;
    if Logs(s.task.pc) {
      OwnTaskLogs(c, s, j);
    } else {
      assert Next(c, s, TaskStep).log == s.log;
    }
  }

  lemma {:induction false} OwnTaskLogs(c: Config, s: System, j: nat)
    requires Enabled(c, s, TaskStep) && j < |c| && s.task.k == j && Logs(s.task.pc)
    ensures Proj(c, Next(c, s, TaskStep), j) == KNext(c[j], Proj(c, s, j), KTaskStep)
  {
    KeyLogAppend(s.log, Event(j, KindOf(s.task.pc), s.now), j);
    hide KeyLog;
  }

  /** A callback statement for another key, which has another pin. */
  lemma {:induction false} OtherTask(c: Config, s: System, j: nat)
    requires Enabled(c, s, TaskStep) && j < |c| && s.task.k != j && c[s.task.k].gpio != c[j].gpio
    ensures Proj(c, Next(c, s, TaskStep), j) == Proj(c, s, j)
  {
    hide KeyLog;
    if Logs(s.task.pc) {
      OtherTaskLogs(c, s, j);
    } else {
      assert Next(c, s, TaskStep).log == s.log;
    }
  }

  lemma {:induction false} OtherTaskLogs(c: Config, s: System, j: nat)
    requires Enabled(c, s, TaskStep) && j < |c| && s.task.k != j && Logs(s.task.pc)
    ensures Proj(c, Next(c, s, TaskStep), j) == Proj(c, s, j)
  {
    KeyLogAppend(s.log, Event(s.task.k, KindOf(s.task.pc), s.now), j);
    hide KeyLog;
  }

  lemma {:induction false} OtherProjects(c: Config, s: System, l: Label, j: nat)
    requires Enabled(c, s, l) && j < |c| && l != IsrStep && l != TaskStep
    ensures Follows(c[j], Proj(c, s, j), ProjLabel(c, s, l, j), Proj(c, Next(c, s, l), j))
  {
    var k := Proj(c, s, j);
    match l {
      case Pin(id, level) =>
        if id == c[j].gpio { FollowsOne(c[j], k, KPin(level)); }
      case Tick(ms) => FollowsOne(c[j], k, KTick(ms));
      case EnterIsr => FollowsOne(c[j], k, KEnter);
      case Fire50(i) =>
        if i == j { FollowsOne(c[j], k, KFire50); }
      case Fire5(i) =>
        if i == j { FollowsOne(c[j], k, KFire5); }
    }
    FollowsNone(c[j], k);
  }

  /** Every step of the system is a step of the key, or leaves the key as it is. */
  lemma {:induction false} StepProjects(c: Config, s: System, l: Label, j: nat)
    requires DistinctPins(c) && Enabled(c, s, l) && j < |c|
    ensures Follows(c[j], Proj(c, s, j), ProjLabel(c, s, l, j), Proj(c, Next(c, s, l), j))
  {
    var k := Proj(c, s, j);
    FollowsNone(c[j], k);
    hide Proj, Next, Follows, KEnabled, KNext, DistinctPins;
    if l == IsrStep {
      if s.isr.i == j {
        OwnIsr(c, s, j);
        FollowsOne(c[j], k, KIsrStep);
      } else {
        PinsDiffer(c, s.isr.i, j);
        OtherIsr(c, s, j);
      }
    } else if l == TaskStep {
      if s.task.k == j {
        OwnTask(c, s, j);
        FollowsOne(c[j], k, KTaskStep);
      } else {
        PinsDiffer(c, s.task.k, j);
        OtherTask(c, s, j);
      }
    } else {
      OtherProjects(c, s, l, j);
    }
  }

  lemma PinsDiffer(c: Config, i: nat, j: nat)
    requires DistinctPins(c) && i != j && j < |c|
    ensures i < |c| ==> c[i].gpio != c[j].gpio
  {
  }

  function ProjRun(c: Config, s: System, run: seq<Label>, j: nat): seq<KLabel>
    requires Legal(c, s, run) && j < |c|
    decreases |run|
  {
    if run == [] then []
    else ProjLabel(c, s, run[0], j) + ProjRun(c, Next(c, s, run[0]), run[1..], j)
  }

  lemma {:induction false} FollowsAppend(c: KeyConfig, k: K, xs: seq<KLabel>, k': K, ys: seq<KLabel>, k'': K)
    requires Follows(c, k, xs, k') && Follows(c, k', ys, k'')
    ensures Follows(c, k, xs + ys, k'')
    decreases |xs|
  {
    hide KEnabled, KNext;
    if xs == [] {
      assert xs + ys == ys;
    } else {
      assert (xs + ys)[1..] == xs[1..] + ys;
      FollowsAppend(c, KNext(c, k, xs[0]), xs[1..], k', ys, k'');
    }
  }

  lemma {:induction false} LegalEnd(c: Config, s: System, run: seq<Label>)
    requires Legal(c, s, run) && WellFormed(c, s)
    ensures WellFormed(c, After(c, s, run))
    decreases |run|
  {
    hide Enabled, Next, WellFormed;
    if run != [] {
      LegalEnd(c, Next(c, s, run[0]), run[1..]);
    }
  }

  /** The projection of a legal run to a key is a legal run of that key. */
  lemma {:induction false} RunProjects(c: Config, s: System, run: seq<Label>, j: nat)
    requires DistinctPins(c) && WellFormed(c, s) && Legal(c, s, run) && j < |c|
    ensures WellFormed(c, After(c, s, run))
    ensures Follows(c[j], Proj(c, s, j), ProjRun(c, s, run, j), Proj(c, After(c, s, run), j))
    decreases |run|
  {
    LegalEnd(c, s, run);
    hide DistinctPins, WellFormed, Enabled, Next, Follows, Proj, ProjLabel;
    if run == [] {
      FollowsNone(c[j], Proj(c, s, j));
    } else {
      var s' := Next(c, s, run[0]);
      StepProjects(c, s, run[0], j);
      RunProjects(c, s', run[1..], j);
      FollowsAppend(c[j], Proj(c, s, j), ProjLabel(c, s, run[0], j), Proj(c, s', j),
                    ProjRun(c, s', run[1..], j), Proj(c, After(c, s, run), j));
    }
  }

  // ----- what every run of the driver keeps --------------------------------------------------------

  /** States in the runs that start after `key_init`. */
  ghost predicate ReachedBy(c: Config, s0: System, run: seq<Label>, s: System) {
    Initial(c, s0) && Legal(c, s0, run) && After(c, s0, run) == s
  }

  lemma {:induction false} KeyHistoryHolds(c: Config, s0: System, run: seq<Label>, s: System, j: nat)
    requires DistinctPins(c) && ReachedBy(c, s0, run, s) && j < |c|
    ensures WellFormed(c, s) && History(c[j], Proj(c, s, j))
  {
    RunProjects(c, s0, run, j);
    hide History;
    HistoryInitial(c[j], Proj(c, s0, j));
    HistoryRun(c[j], Proj(c, s0, j), ProjRun(c, s0, run, j));
  }

  /**
   * In every run the presses, long calls and releases of each key form a prefix of a word in
   * (Press LongCall? Release)*; with a short_press installed each release is followed by exactly
   * one call before the next release, and has had it when no callback runs; a function that is not
   * installed is never called.
   */
  lemma {:induction false} EventOrder(c: Config, s0: System, run: seq<Label>, s: System, j: nat)
    requires DistinctPins(c) && ReachedBy(c, s0, run, s) && j < |c|
    ensures PressWord(PressKinds(KeyLog(s.log, j)))
    ensures c[j].shortPress ==> CallWord(CallKinds(KeyLog(s.log, j)))
    ensures c[j].shortPress && s.task.NoTask? ==> DebtOf(KeyLog(s.log, j)) == Quiet
    ensures !c[j].shortPress ==> forall e <- KeyLog(s.log, j) :: e.kind != ShortCall
    ensures !c[j].longPress ==> forall e <- KeyLog(s.log, j) :: e.kind != LongCall
  {
    KeyHistoryHolds(c, s0, run, s, j);
    LogWords(KeyLog(s.log, j));
    hide PressWord, CallWord, Control, PressKinds, CallKinds, PhaseOf, DebtOf;
  }

  /**
   * A long call comes at least 5000 ms after its press and a release at least 50 ms after its
   * press; so releases of a key are 50 ms apart, long calls 5000 ms, and every window of T ms holds
   * at most T/50 + 1 and T/5000 + 1 of them.  A long call that is still to come is due exactly 5000
   * ms after the press.
   */
  lemma {:induction false} EventRates(c: Config, s0: System, run: seq<Label>, s: System, j: nat, a: nat, t: nat)
    requires DistinctPins(c) && ReachedBy(c, s0, run, s) && j < |c|
    ensures WellTimed(KeyLog(s.log, j))
    ensures |s.keys| == |c| && (s.keys[j].key5s.Armed? ==> s.keys[j].key5s.due == LastPress(KeyLog(s.log, j)) + 5000)
    ensures Spaced(Times(KeyLog(s.log, j), Release), 50)
    ensures Spaced(Times(KeyLog(s.log, j), LongCall), 5000)
    ensures CountWithin(Times(KeyLog(s.log, j), Release), a, a + t) <= t / 50 + 1
    ensures CountWithin(Times(KeyLog(s.log, j), LongCall), a, a + t) <= t / 5000 + 1
  {
    KeyHistoryHolds(c, s0, run, s, j);
    LogSpaced(KeyLog(s.log, j));
    LogRates(KeyLog(s.log, j), a, t);
  }

  // ----- the lock in the whole system -----------------------------------------------------------------

  /** The handler is at a statement of the branch for key `j`. */
  predicate InBranch(s: System, j: nat) {
    s.isr.InIsr? && s.isr.i == j && s.isr.pc != Test
  }

  /** `key_50ms_cb` runs for key `j` and has not yet set an interrupt type. */
  predicate InCheck(s: System, j: nat) {
    s.task.InTask? && s.task.k == j && Checking(s.task.pc)
  }

  /** The handler has left key `j` with its interrupt disabled. */
  predicate Guarded(c: Config, s: System, j: nat)
    requires j < |c|
  {
    Intr(s.gpio, c[j].gpio) == Disable && !InBranch(s, j)
  }

  /** The step is line 116 or line 122 for key `j`. */
  predicate Releases(s: System, l: Label, j: nat) {
    l == TaskStep && s.task.InTask? && s.task.k == j && (s.task.pc.Up50NegEdge? || s.task.pc.Up50PosEdge?)
  }

  predicate NeverReleases(c: Config, s: System, run: seq<Label>, j: nat)
    requires Legal(c, s, run)
    decreases |run|
  {
    run != [] ==> !Releases(s, run[0], j) && NeverReleases(c, Next(c, s, run[0]), run[1..], j)
  }

  /** In every reachable state at most one side works on a key's level. */
  lemma {:induction false} OneSide(c: Config, s0: System, run: seq<Label>, s: System, j: nat)
    requires DistinctPins(c) && ReachedBy(c, s0, run, s) && j < |c|
    ensures !(InBranch(s, j) && InCheck(s, j))
    ensures InCheck(s, j) ==> Guarded(c, s, j)
  {
    KeyHistoryHolds(c, s0, run, s, j);
    MutualExclusion(Proj(c, s, j));
  }

  lemma GuardedIsLocked(c: Config, s: System, j: nat)
    requires WellFormed(c, s) && j < |c|
    ensures Guarded(c, s, j) <==> Locked(Proj(c, s, j))
  {
  }

  lemma ReleasesIsUnlocks(c: Config, s: System, l: Label, j: nat)
    requires Enabled(c, s, l) && j < |c|
    ensures ProjLabel(c, s, l, j) != [] && Unlocks(Proj(c, s, j), ProjLabel(c, s, l, j)[0]) ==> Releases(s, l, j)
  {
  }

  lemma {:induction false} GuardedStep(c: Config, s: System, l: Label, j: nat)
    requires DistinctPins(c) && Enabled(c, s, l) && j < |c|
    requires Control(Proj(c, s, j)) && Guarded(c, s, j)
    ensures Guarded(c, Next(c, s, l), j) || Releases(s, l, j)
    ensures Control(Proj(c, Next(c, s, l), j))
    ensures Next(c, s, l).keys[j].level != s.keys[j].level ==>
      l == TaskStep && s.task == InTask(j, Up50Level)
  {
    var k, run := Proj(c, s, j), ProjLabel(c, s, l, j);
    var k' := Proj(c, Next(c, s, l), j);
    StepProjects(c, s, l, j);
    GuardedIsLocked(c, s, j);
    GuardedIsLocked(c, Next(c, s, l), j);
    ReleasesIsUnlocks(c, s, l, j);
    LevelTask(c, s, l, j);
    assert k'.key == Next(c, s, l).keys[j] && k.key == s.keys[j];
    assert |run| <= 1;
    hide Control, Locked, Unlocks, Guarded, Releases, Next, KNext, KEnabled, DistinctPins, Follows, Proj, ProjLabel;
    if run == [] {
      FollowsIsNone(c[j], k, k');
    } else {
      assert run == [run[0]];
      FollowsIsOne(c[j], k, run[0], k');
      LockedStep(c[j], k, run[0]);
      ControlStep(c[j], k, run[0]);
    }
  }

  lemma FollowsIsNone(c: KeyConfig, k: K, k': K)
    requires Follows(c, k, [], k')
    ensures k' == k
  {
  }

  lemma {:induction false} FollowsIsOne(c: KeyConfig, k: K, l: KLabel, k': K)
    requires Follows(c, k, [l], k')
    ensures KEnabled(k, l) && k' == KNext(c, k, l)
  {
    FollowsOne(c, k, l);
  }

  lemma LevelTask(c: Config, s: System, l: Label, j: nat)
    requires Enabled(c, s, l) && j < |c|
    ensures ProjLabel(c, s, l, j) == [KTaskStep] && Proj(c, s, j).task == In(Up50Level) ==>
      l == TaskStep && s.task == InTask(j, Up50Level)
  {
  }

  /**
   * GPIO_PIN_INTR_DISABLE is a lock: once the handler has left a key with its interrupt disabled,
   * no handler takes the branch for that key until `key_50ms_cb` reaches line 116 or 122 for it.
   */
  lemma {:induction false} GuardHolds(c: Config, s: System, run: seq<Label>, j: nat)
    requires DistinctPins(c) && WellFormed(c, s) && Legal(c, s, run) && j < |c|
    requires Control(Proj(c, s, j)) && Guarded(c, s, j) && NeverReleases(c, s, run, j)
    ensures Guarded(c, After(c, s, run), j)
    decreases |run|
  {
    hide DistinctPins, WellFormed, Enabled, Next, Control, Proj, Guarded, Releases;
    if run != [] {
      GuardedStep(c, s, run[0], j);
      GuardHolds(c, Next(c, s, run[0]), run[1..], j);
    }
  }
}
