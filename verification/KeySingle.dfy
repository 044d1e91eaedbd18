/** One key of the driver on its own: what the whole system looks like from that key. */
module KeySingle {
  import opened KeyModel

  datatype KeyEvent = KeyEvent(kind: Kind, time: nat)

  /**
   * Where the handler is, seen from the key: not in the part that concerns it, on its way with the
   * key's bit of the snapshot, or at a statement for the key.
   */
  datatype KIsr = Out | Ahead(hit: bool) | At(pc: IsrPc)

  /** Which timer callback runs: none for the key, or one that is at this statement. */
  datatype KTask = Away | In(pc: TaskPc)

  datatype K = K(
    key: Key,
    intr: IntType,
    status: bool,
    high: bool,
    isr: KIsr,
    task: KTask,
    now: nat,
    log: seq<KeyEvent>)

  datatype KLabel = KPin(level: bool) | KTick(ms: nat) | KEnter | KIsrStep | KFire50 | KFire5 | KTaskStep

  // ----- steps -------------------------------------------------------------------------------

  predicate KOk(k: K) {
    k.isr.At? ==> k.isr.pc != Test
  }

  function KSetPin(k: K, level: bool): K {
    var latch := level != k.high && k.intr == if level then PosEdge else NegEdge;
    k.(high := level, status := k.status || latch)
  }

  function KLog(k: K, kind: Kind): K {
    k.(log := k.log + [KeyEvent(kind, k.now)])
  }

  function KIsrStatement(k: K): K
    requires KOk(k) && !k.isr.Out?
  {
    match k.isr
    case Ahead(hit) => k.(isr := if hit then At(DisableIntr) else Out)
    case At(pc) =>
      match pc
      case DisableIntr => k.(intr := Disable, isr := At(ClearStatus))
      case ClearStatus => k.(status := false, isr := At(TestLevel))
      case TestLevel => k.(isr := At(if k.key.level == 1 then Disarm5 else Disarm50))
      case Disarm5 => k.(key := k.key.(key5s := Idle), isr := At(Arm5))
      case Arm5 => KLog(k.(key := k.key.(key5s := Armed(k.now + 5000)), isr := At(LevelDown)), Press)
      case LevelDown => k.(key := k.key.(level := 0), isr := At(SetPosEdge))
      case SetPosEdge => k.(intr := PosEdge, isr := Out)
      case Disarm50 => k.(key := k.key.(key50ms := Idle), isr := At(Arm50))
      case Arm50 => k.(key := k.key.(key50ms := Armed(k.now + 50)), isr := Out)
  }

  function KTaskStatement(c: KeyConfig, k: K): K
    requires k.task.In?
  {
    match k.task.pc
    case Up50Disarm => k.(key := k.key.(key50ms := Idle), task := In(Up50Test))
    case Up50Test => k.(task := In(if k.high then Up50Disarm5 else Up50PosEdge))
    case Up50Disarm5 => k.(key := k.key.(key5s := Idle), task := In(Up50Level))
    case Up50Level => KLog(k.(key := k.key.(level := 1), task := In(Up50NegEdge)), Release)
    case Up50NegEdge => k.(intr := NegEdge, task := if c.shortPress then In(Up50Call) else Away)
    case Up50Call => KLog(k.(task := Away), ShortCall)
    case Up50PosEdge => k.(intr := PosEdge, task := Away)
    case Long5Disarm => k.(key := k.key.(key5s := Idle), task := In(Long5Test))
    case Long5Test => k.(task := if !k.high && c.longPress then In(Long5Call) else Away)
    case Long5Call => KLog(k.(task := Away), LongCall)
  }

  predicate KEnabled(k: K, l: KLabel) {
    && KOk(k)
    && match l
       case KPin(_) => true
       case KTick(_) => true
       case KEnter => k.isr.Out?
       case KIsrStep => !k.isr.Out?
       case KFire50 => k.isr.Out? && k.task.Away? && k.key.key50ms.Armed? && k.key.key50ms.due <= k.now
       case KFire5 => k.isr.Out? && k.task.Away? && k.key.key5s.Armed? && k.key.key5s.due <= k.now
       case KTaskStep => k.isr.Out? && k.task.In?
  }

  function KNext(c: KeyConfig, k: K, l: KLabel): (k': K)
    requires KEnabled(k, l)
    ensures KOk(k')
  {
    match l
    case KPin(level) => KSetPin(k, level)
    case KTick(ms) => k.(now := k.now + ms)
    case KEnter => k.(isr := Ahead(k.status))
    case KIsrStep => KIsrStatement(k)
    case KFire50 => k.(key := k.key.(key50ms := Idle), task := In(Up50Disarm))
    case KFire5 => k.(key := k.key.(key5s := Idle), task := In(Long5Disarm))
    case KTaskStep => KTaskStatement(c, k)
  }

  predicate KInitial(k: K) {
    && k.key == Key(1, Idle, Idle) && k.intr == NegEdge && !k.status
    && k.isr.Out? && k.task.Away? && k.log == []
  }

  predicate KLegal(c: KeyConfig, k: K, run: seq<KLabel>)
    decreases |run|
  {
    run != [] ==> KEnabled(k, run[0]) && KLegal(c, KNext(c, k, run[0]), run[1..])
  }

  function KAfter(c: KeyConfig, k: K, run: seq<KLabel>): K
    requires KLegal(c, k, run)
    decreases |run|
  {
    if run == [] then k else KAfter(c, KNext(c, k, run[0]), run[1..])
  }

  // ----- the control invariant --------------------------------------------------------------------

  /** Between presses: waiting for the key to go down. */
  predicate IdleMode(k: K) {
    k.key == Key(1, Idle, Idle) && k.intr == NegEdge
  }

  /** Pressed: waiting for the key to go up. */
  predicate HeldMode(k: K) {
    k.key.level == 0 && k.key.key50ms == Idle && k.intr == PosEdge
  }

  /** Between the rising edge and the check 50 ms later: the interrupt is disabled. */
  predicate BouncingMode(k: K) {
    k.key.level == 0 && k.key.key50ms.Armed? && k.intr == Disable && !k.status
  }

  /** The handler is at a statement for the key. */
  predicate ServedFromIdle(k: K) {
    && k.isr.At? && k.key.key50ms == Idle
    && match k.isr.pc
       case DisableIntr => k.key.level == 1 && k.key.key5s == Idle && k.intr == NegEdge && k.status
       case ClearStatus => k.key.level == 1 && k.key.key5s == Idle && k.intr == Disable
       case TestLevel => k.key.level == 1 && k.key.key5s == Idle && k.intr == Disable && !k.status
       case Disarm5 => k.key.level == 1 && k.key.key5s == Idle && k.intr == Disable && !k.status
       case Arm5 => k.key.level == 1 && k.key.key5s == Idle && k.intr == Disable && !k.status
       case LevelDown => k.key.level == 1 && k.key.key5s.Armed? && k.intr == Disable && !k.status
       case SetPosEdge => k.key.level == 0 && k.key.key5s.Armed? && k.intr == Disable && !k.status
       case _ => false
  }

  predicate ServedFromHeld(k: K) {
    && k.isr.At? && k.key.level == 0 && k.key.key50ms == Idle
    && match k.isr.pc
       case DisableIntr => k.intr == PosEdge && k.status
       case ClearStatus => k.intr == Disable
       case TestLevel => k.intr == Disable && !k.status
       case Disarm50 => k.intr == Disable && !k.status
       case Arm50 => k.intr == Disable && !k.status
       case _ => false
  }

  /** The callback has been started for a bouncing key and has not yet set an interrupt type. */
  predicate Checking(pc: TaskPc) {
    pc.Up50Disarm? || pc.Up50Test? || pc.Up50Disarm5? || pc.Up50Level? || pc.Up50NegEdge? || pc.Up50PosEdge?
  }

  predicate InLong(pc: TaskPc) {
    pc.Long5Disarm? || pc.Long5Test? || pc.Long5Call?
  }

  predicate CheckingMode(k: K, pc: TaskPc) {
    && k.intr == Disable && !k.status && k.key.key50ms == Idle && !k.isr.At?
    && (pc == Up50NegEdge ==> k.key == Key(1, Idle, Idle))
    && (pc != Up50NegEdge ==> k.key.level == 0)
    && (pc == Up50Level ==> k.key.key5s == Idle)
  }

  /** What the handler and the callbacks may rely on when neither is busy with the key's level. */
  predicate FreeMode(k: K) {
    if k.isr.At? then ServedFromIdle(k) || ServedFromHeld(k)
    else IdleMode(k) || HeldMode(k) || BouncingMode(k)
  }

  predicate Control(k: K) {
    && KOk(k)
    && (k.isr.Ahead? && k.isr.hit ==> k.status)
    && match k.task
       case Away => FreeMode(k)
       case In(pc) =>
         if Checking(pc) then CheckingMode(k, pc)
         else if InLong(pc) then
           FreeMode(k) && k.key.level == 0 && k.key.key5s == Idle && !ServedFromIdle(k)
         else FreeMode(k)
  }

  lemma ControlPin(c: KeyConfig, k: K, level: bool)
    requires Control(k)
    ensures Control(KSetPin(k, level))
  {
  }

  lemma ControlIsr(c: KeyConfig, k: K)
    requires Control(k) && !k.isr.Out?
    ensures Control(KIsrStatement(k))
  {
  }

  lemma ControlTask(c: KeyConfig, k: K)
    requires Control(k) && k.isr.Out? && k.task.In?
    ensures Control(KTaskStatement(c, k))
  {
  }

  /** Every step keeps the control invariant. */
  lemma {:induction false} ControlStep(c: KeyConfig, k: K, l: KLabel)
    requires Control(k) && KEnabled(k, l)
    ensures Control(KNext(c, k, l))
  {
    match l {
      case KPin(level) => ControlPin(c, k, level);
      case KTick(_) =>
      case KEnter =>
      case KIsrStep => ControlIsr(c, k);
      case KFire50 =>
      case KFire5 =>
      case KTaskStep => ControlTask(c, k);
    }
  }

  lemma {:induction false} ControlRun(c: KeyConfig, k: K, run: seq<KLabel>)
    requires Control(k) && KLegal(c, k, run)
    ensures Control(KAfter(c, k, run))
    decreases |run|
  {
    hide Control, KNext;
    if run != [] {
      ControlStep(c, k, run[0]);
      ControlRun(c, KNext(c, k, run[0]), run[1..]);
    }
  }
}
