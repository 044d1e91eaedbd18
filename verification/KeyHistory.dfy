/** What every run of one key keeps: the lock, the order of its events, and their distances. */
module KeyHistory {
  import opened KeyModel
  import opened KeySingle
  import opened KeyWords

  // ----- the disabled interrupt is a lock ----------------------------------------------------

  /** The interrupt has been disabled by a handler that has gone on. */
  predicate Locked(k: K) {
    k.intr == Disable && !k.isr.At?
  }

  /** `key_50ms_cb` is about to set an interrupt type (line 116 or 122). */
  predicate Unlocks(k: K, l: KLabel) {
    l == KTaskStep && k.task in {In(Up50NegEdge), In(Up50PosEdge)}
  }

  /** The handler and `key_50ms_cb` are never both at statements for the same key. */
  lemma MutualExclusion(k: K)
    requires Control(k)
    ensures k.isr.At? ==> !(k.task.In? && Checking(k.task.pc))
    ensures k.task.In? && Checking(k.task.pc) ==> Locked(k) && !k.status
  {
  }

  /** While the lock is held, the handler does not take the branch for the key. */
  lemma LockedStep(c: KeyConfig, k: K, l: KLabel)
    requires Control(k) && Locked(k) && KEnabled(k, l)
    ensures !k.status && k.isr != Ahead(true)
    ensures Locked(KNext(c, k, l)) || Unlocks(k, l)
    ensures KNext(c, k, l).key.level != k.key.level ==> l == KTaskStep && k.task == In(Up50Level)
  {
  }

  predicate NeverUnlocks(c: KeyConfig, k: K, run: seq<KLabel>)
    requires KLegal(c, k, run)
    decreases |run|
  {
    run != [] ==> !Unlocks(k, run[0]) && NeverUnlocks(c, KNext(c, k, run[0]), run[1..])
  }

  /**
   * From the moment the handler has left a disabled key until `key_50ms_cb` reaches line 116 or
   * 122, no handler run takes the branch for that key, whatever the pins and the time do.
   */
  lemma {:induction false} LockHolds(c: KeyConfig, k: K, run: seq<KLabel>)
    requires Control(k) && Locked(k) && KLegal(c, k, run) && NeverUnlocks(c, k, run)
    ensures Locked(KAfter(c, k, run)) && !KAfter(c, k, run).status
    decreases |run|
  {
    hide Control, Locked, Unlocks, KNext;
    if run == [] {
      LockedStatus(k);
    } else {
      LockedStep(c, k, run[0]);
      ControlStep(c, k, run[0]);
      LockHolds(c, KNext(c, k, run[0]), run[1..]);
    }
  }

  lemma LockedStatus(k: K)
    requires Control(k) && Locked(k)
    ensures !k.status
  {
  }

  // ----- the history invariant --------------------------------------------------------------------

  predicate InTaskAt(k: K, pcs: set<TaskPc>) {
    k.task.In? && k.task.pc in pcs
  }

  /** The phase of the history follows the key's level and the statement that is next. */
  predicate PhaseInv(k: K) {
    var ph := PhaseOf(k.log);
    && ph != Wrong
    && (ph == Up <==> k.key.level == 1 && k.isr != At(LevelDown))
    && (k.key.key5s.Armed? ==> ph == Down)
    && (InTaskAt(k, {Long5Disarm, Long5Test, Long5Call}) ==> ph == Down)
  }

  predicate NoKind(log: seq<KeyEvent>, kind: Kind) {
    forall i :: 0 <= i < |log| ==> log[i].kind != kind
  }

  /** With short_press installed a call is owed exactly between a release and the call. */
  predicate DebtInv(c: KeyConfig, k: K) {
    if c.shortPress then DebtOf(k.log) == if InTaskAt(k, {Up50NegEdge, Up50Call}) then Owed else Quiet
    else k.task != In(Up50Call) && NoKind(k.log, ShortCall)
  }

  predicate LongInv(c: KeyConfig, k: K) {
    !c.longPress ==> k.task != In(Long5Call) && NoKind(k.log, LongCall)
  }

  predicate TimeInv(k: K) {
    var p := LastPress(k.log);
    && WellTimed(k.log)
    && (k.log != [] ==> k.log[|k.log| - 1].time <= k.now)
    && (k.key.key5s.Armed? ==> k.key.key5s.due == p + 5000)
    && (k.key.key50ms.Armed? ==> k.key.key50ms.due >= p + 50)
    && (InTaskAt(k, {Long5Disarm, Long5Test, Long5Call}) ==> k.now >= p + 5000)
    && (InTaskAt(k, {Up50Disarm, Up50Test, Up50Disarm5, Up50Level, Up50PosEdge}) ==> k.now >= p + 50)
  }

  predicate History(c: KeyConfig, k: K) {
    Control(k) && PhaseInv(k) && DebtInv(c, k) && LongInv(c, k) && TimeInv(k)
  }

  lemma HistoryInitial(c: KeyConfig, k: K)
    requires KInitial(k)
    ensures History(c, k)
  {
  }

  lemma {:induction false} Logged(log: seq<KeyEvent>, e: KeyEvent)
    ensures PhaseOf(log + [e]) == PhaseStep(PhaseOf(log), e.kind)
    ensures DebtOf(log + [e]) == DebtStep(DebtOf(log), e.kind)
    ensures LastPress(log + [e]) == if e.kind == Press then e.time else LastPress(log)
    ensures WellTimed(log + [e]) <==>
      && WellTimed(log)
      && (log != [] ==> log[|log| - 1].time <= e.time)
      && (e.kind in {LongCall, Release} ==> e.time >= LastPress(log) + Delay(e.kind))
  {
    assert (log + [e])[..|log|] == log;
  }

  lemma {:induction false} LastPressBound(log: seq<KeyEvent>, now: nat)
    requires WellTimed(log) && (log != [] ==> log[|log| - 1].time <= now)
    ensures LastPress(log) <= now
  {
    if log != [] {
      LogEnd(log);
    }
  }

  lemma {:induction false} PhaseIsr(k: K)
    requires Control(k) && PhaseInv(k) && !k.isr.Out?
    ensures PhaseInv(KIsrStatement(k))
  {
    Logged(k.log, KeyEvent(Press, k.now));
    hide PhaseOf, DebtOf, LastPress, WellTimed;
  }

  lemma {:induction false} CallsIsr(c: KeyConfig, k: K)
    requires KOk(k) && DebtInv(c, k) && LongInv(c, k) && !k.isr.Out?
    ensures DebtInv(c, KIsrStatement(k)) && LongInv(c, KIsrStatement(k))
  {
    Logged(k.log, KeyEvent(Press, k.now));
    hide PhaseOf, DebtOf, LastPress, WellTimed;
  }

  /** At line 150 the other timer is not armed and no callback has passed its start. */
  lemma {:induction false} AtArm5(k: K)
    requires Control(k) && k.isr == At(Arm5)
    ensures k.key.key50ms == Idle && k.task in {Away, In(Up50Call)}
  {
    if k.task.In? {
      assert k.task.pc.Up50Call? || Checking(k.task.pc) || InLong(k.task.pc);
    }
  }

  lemma {:induction false} TimeArm5(k: K)
    requires TimeInv(k) && KOk(k) && k.isr == At(Arm5)
    requires k.key.key50ms == Idle && k.task in {Away, In(Up50Call)}
    ensures TimeInv(KIsrStatement(k))
  {
    Logged(k.log, KeyEvent(Press, k.now));
    hide PhaseOf, DebtOf, LastPress, WellTimed;
  }

  lemma {:induction false} TimeIsr(k: K)
    requires Control(k) && TimeInv(k) && !k.isr.Out?
    ensures TimeInv(KIsrStatement(k))
  {
    LastPressBound(k.log, k.now);
    hide PhaseOf, DebtOf, LastPress, WellTimed;
    if k.isr == At(Arm5) {
      AtArm5(k);
      TimeArm5(k);
    } else {
      hide Control;
      assert KIsrStatement(k).log == k.log;
    }
  }

  lemma {:induction false} PhaseTask(c: KeyConfig, k: K)
    requires Control(k) && PhaseInv(k) && k.isr.Out? && k.task.In?
    ensures PhaseInv(KTaskStatement(c, k))
  {
    hide PhaseOf, DebtOf, LastPress, WellTimed;
    match k.task.pc {
      case Up50Level => Logged(k.log, KeyEvent(Release, k.now));
      case Up50Call => Logged(k.log, KeyEvent(ShortCall, k.now));
      case Long5Call => Logged(k.log, KeyEvent(LongCall, k.now));
      case _ => assert KTaskStatement(c, k).log == k.log;
    }
  }

  lemma {:induction false} CallsTask(c: KeyConfig, k: K)
    requires DebtInv(c, k) && LongInv(c, k) && k.task.In?
    ensures DebtInv(c, KTaskStatement(c, k)) && LongInv(c, KTaskStatement(c, k))
  {
    hide PhaseOf, DebtOf, LastPress, WellTimed;
    match k.task.pc {
      case Up50Level => Logged(k.log, KeyEvent(Release, k.now));
      case Up50Call => Logged(k.log, KeyEvent(ShortCall, k.now));
      case Long5Call => Logged(k.log, KeyEvent(LongCall, k.now));
      case _ => assert KTaskStatement(c, k).log == k.log;
    }
  }

  lemma {:induction false} TimeTask(c: KeyConfig, k: K)
    requires Control(k) && TimeInv(k) && k.isr.Out? && k.task.In?
    ensures TimeInv(KTaskStatement(c, k))
  {
    hide PhaseOf, DebtOf, LastPress, WellTimed;
    match k.task.pc {
      case Up50Level => Logged(k.log, KeyEvent(Release, k.now));
      case Up50Call => Logged(k.log, KeyEvent(ShortCall, k.now));
      case Long5Call => Logged(k.log, KeyEvent(LongCall, k.now));
      case _ => assert KTaskStatement(c, k).log == k.log;
    }
  }

  /** Every step keeps the history invariant. */
  lemma {:induction false} HistoryStep(c: KeyConfig, k: K, l: KLabel)
    requires History(c, k) && KEnabled(k, l)
    ensures History(c, KNext(c, k, l))
  {
    ControlStep(c, k, l);
    hide PhaseOf, DebtOf, LastPress, Kinds, WellTimed;
    match l {
      case KPin(_) =>
      case KTick(_) =>
      case KEnter =>
      case KIsrStep =>
        PhaseIsr(k);
        CallsIsr(c, k);
        TimeIsr(k);
      case KFire50 =>
      case KFire5 =>
      case KTaskStep =>
        PhaseTask(c, k);
        CallsTask(c, k);
        TimeTask(c, k);
    }
  }

  lemma {:induction false} HistoryRun(c: KeyConfig, k: K, run: seq<KLabel>)
    requires History(c, k) && KLegal(c, k, run)
    ensures History(c, KAfter(c, k, run))
    decreases |run|
  {
    hide History, KNext;
    if run != [] {
      HistoryStep(c, k, run[0]);
      HistoryRun(c, KNext(c, k, run[0]), run[1..]);
    }
  }

  // ----- a key with nothing to do -----------------------------------------------------------------

  predicate NoPin(run: seq<KLabel>) {
    forall i :: 0 <= i < |run| ==> !run[i].KPin?
  }

  /** Nothing is latched for the key, and the handler and `key_50ms_cb` have nothing to do for it. */
  predicate Unserved(k: K) {
    && !k.status && !k.isr.At? && k.isr != Ahead(true)
    && (IdleMode(k) || HeldMode(k))
    && !(k.task.In? && Checking(k.task.pc))
  }

  lemma UnservedStep(c: KeyConfig, k: K, l: KLabel)
    requires Unserved(k) && KEnabled(k, l) && !l.KPin?
    ensures var k' := KNext(c, k, l);
      && Unserved(k') && k'.key.level == k.key.level && k'.high == k.high
      && (k'.log == k.log || (exists e :: k'.log == k.log + [e] && e.kind in {ShortCall, LongCall}))
  {
  }

  lemma {:induction false} UnloggedTimes(log: seq<KeyEvent>, e: KeyEvent, kind: Kind)
    requires e.kind != kind
    ensures Times(log + [e], kind) == Times(log, kind)
  {
    assert (log + [e])[..|log|] == log;
    assert Times(log, kind) + [] == Times(log, kind);
  }

  /** Until the pin changes, such a key sees no press and no release, however long it takes. */
  lemma {:induction false} UnservedRun(c: KeyConfig, k: K, run: seq<KLabel>)
    requires Unserved(k) && KLegal(c, k, run) && NoPin(run)
    ensures var k' := KAfter(c, k, run);
      && Unserved(k') && k'.key.level == k.key.level
      && Times(k'.log, Press) == Times(k.log, Press) && Times(k'.log, Release) == Times(k.log, Release)
    decreases |run|
  {
    hide Unserved, KNext, KEnabled, Times;
    if run != [] {
      assert !run[0].KPin? && NoPin(run[1..]);
      UnservedStep(c, k, run[0]);
      var k' := KNext(c, k, run[0]);
      if k'.log != k.log {
        var e :| k'.log == k.log + [e] && e.kind in {ShortCall, LongCall};
        UnloggedTimes(k.log, e, Press);
        UnloggedTimes(k.log, e, Release);
      }
      UnservedRun(c, k', run[1..]);
    }
  }
}
