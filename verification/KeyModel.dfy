/**
 * The key driver of `app/driver/key.c` as a transition system.  The interrupt handler and the
 * timer callbacks are split into their statements; the pins and the time change at any moment.
 */
module KeyModel {

  /** GPIO_INT_TYPE, as far as the driver uses it. */
  datatype IntType = Disable | PosEdge | NegEdge

  /** A one-shot os_timer. */
  datatype Timer = Idle | Armed(due: nat)

  /** The constant fields of `struct single_key_param`: pin number and installed functions. */
  datatype KeyConfig = KeyConfig(gpio: nat, shortPress: bool, longPress: bool)

  /** The fields that the driver changes. */
  datatype Key = Key(level: nat, key5s: Timer, key50ms: Timer)

  /** The interrupt types, the latched status bits and the pins that are high. */
  datatype Gpio = Gpio(intr: map<nat, IntType>, status: set<nat>, high: set<nat>)

  /** The next statement of the handler for the key it has reached. */
  datatype IsrPc =
    | Test          // line 139
    | DisableIntr   // line 141
    | ClearStatus   // line 144
    | TestLevel     // line 146
    | Disarm5       // line 148
    | Arm5          // line 150
    | LevelDown     // line 151
    | SetPosEdge    // line 152
    | Disarm50      // line 155
    | Arm50         // line 157

  datatype Isr = NoIsr | InIsr(snap: set<nat>, i: nat, pc: IsrPc)

  /** The next statement of a timer callback. */
  datatype TaskPc =
    | Up50Disarm    // line 110
    | Up50Test      // line 113
    | Up50Disarm5   // line 114
    | Up50Level     // line 115
    | Up50NegEdge   // line 116
    | Up50Call      // line 119
    | Up50PosEdge   // line 122
    | Long5Disarm   // line 91
    | Long5Test     // lines 94 and 95
    | Long5Call     // line 96

  datatype Task = NoTask | InTask(k: nat, pc: TaskPc)

  /** The start of a press, a call of long_press, the commit of a release, a call of short_press. */
  datatype Kind = Press | LongCall | Release | ShortCall

  datatype Event = Event(key: nat, kind: Kind, time: nat)

  datatype System = System(keys: seq<Key>, gpio: Gpio, isr: Isr, task: Task, now: nat, log: seq<Event>)

  datatype Label =
    | Pin(id: nat, level: bool)
    | Tick(ms: nat)
    | EnterIsr
    | IsrStep
    | Fire50(k: nat)
    | Fire5(k: nat)
    | TaskStep

  type Config = seq<KeyConfig>

  // ----- the hardware --------------------------------------------------------------------

  function Intr(g: Gpio, id: nat): IntType {
    if id in g.intr then g.intr[id] else Disable
  }

  /** `gpio_pin_intr_state_set` */
  function SetIntr(g: Gpio, id: nat, t: IntType): Gpio {
    g.(intr := g.intr[id := t])
  }

  /** A write to GPIO_STATUS_W1TC */
  function ClearBits(g: Gpio, mask: set<nat>): Gpio {
    g.(status := g.status - mask)
  }

  /** A pin takes a level; the edge is latched when it matches the interrupt type of the pin. */
  function SetPin(g: Gpio, id: nat, level: bool): Gpio {
    var edge := level != (id in g.high);
    var latch := edge && Intr(g, id) == if level then PosEdge else NegEdge;
    g.(high := if level then g.high + {id} else g.high - {id},
       status := if latch then g.status + {id} else g.status)
  }

  // ----- the handler -------------------------------------------------------------------------

  function SetKey(s: System, i: nat, key: Key): System
    requires i < |s.keys|
  {
    s.(keys := s.keys[i := key])
  }

  function Log(s: System, key: nat, kind: Kind): System {
    s.(log := s.log + [Event(key, kind, s.now)])
  }

  /** The handler goes on with the next key. */
  function NextKey(s: System): System
    requires s.isr.InIsr?
  {
    s.(isr := InIsr(s.isr.snap, s.isr.i + 1, Test))
  }

  function GoIsr(s: System, pc: IsrPc): System
    requires s.isr.InIsr?
  {
    s.(isr := s.isr.(pc := pc))
  }

  predicate WellFormed(c: Config, s: System) {
    && |s.keys| == |c|
    && (s.isr.InIsr? ==> s.isr.i < |c| || (s.isr.i == |c| && s.isr.pc == Test))
    && (s.isr.InIsr? && s.isr.pc != Test ==> c[s.isr.i].gpio in s.isr.snap)
    && (s.task.InTask? ==> s.task.k < |c|)
  }

  /** One statement of `key_intr_handler`. */
  function RunIsrStatement(c: Config, s: System): System
    requires WellFormed(c, s) && s.isr.InIsr?
  {
    var i := s.isr.i;
    if i == |c| then s.(isr := NoIsr) else
      var id, key := c[i].gpio, s.keys[i];
      match s.isr.pc
      case Test => if id in s.isr.snap then GoIsr(s, DisableIntr) else NextKey(s)
      case DisableIntr => GoIsr(s.(gpio := SetIntr(s.gpio, id, Disable)), ClearStatus)
      case ClearStatus => GoIsr(s.(gpio := ClearBits(s.gpio, s.isr.snap * {id})), TestLevel)
      case TestLevel => GoIsr(s, if key.level == 1 then Disarm5 else Disarm50)
      case Disarm5 => GoIsr(SetKey(s, i, key.(key5s := Idle)), Arm5)
      case Arm5 => GoIsr(Log(SetKey(s, i, key.(key5s := Armed(s.now + 5000))), i, Press), LevelDown)
      case LevelDown => GoIsr(SetKey(s, i, key.(level := 0)), SetPosEdge)
      case SetPosEdge => NextKey(s.(gpio := SetIntr(s.gpio, id, PosEdge)))
      case Disarm50 => GoIsr(SetKey(s, i, key.(key50ms := Idle)), Arm50)
      case Arm50 => NextKey(SetKey(s, i, key.(key50ms := Armed(s.now + 50))))
  }

  // ----- the timer callbacks -----------------------------------------------------------------

  function GoTask(s: System, pc: TaskPc): System
    requires s.task.InTask?
  {
    s.(task := s.task.(pc := pc))
  }

  /** One statement of `key_50ms_cb` or `key_5s_cb`. */
  function RunTaskStatement(c: Config, s: System): System
    requires WellFormed(c, s) && s.task.InTask?
  {
    var k := s.task.k;
    var id, key := c[k].gpio, s.keys[k];
    match s.task.pc
    case Up50Disarm => GoTask(SetKey(s, k, key.(key50ms := Idle)), Up50Test)
    case Up50Test => GoTask(s, if id in s.gpio.high then Up50Disarm5 else Up50PosEdge)
    case Up50Disarm5 => GoTask(SetKey(s, k, key.(key5s := Idle)), Up50Level)
    case Up50Level => GoTask(Log(SetKey(s, k, key.(level := 1)), k, Release), Up50NegEdge)
    case Up50NegEdge =>
      var s' := s.(gpio := SetIntr(s.gpio, id, NegEdge));
      if c[k].shortPress then GoTask(s', Up50Call) else s'.(task := NoTask)
    case Up50Call => Log(s.(task := NoTask), k, ShortCall)
    case Up50PosEdge => s.(gpio := SetIntr(s.gpio, id, PosEdge), task := NoTask)
    case Long5Disarm => GoTask(SetKey(s, k, key.(key5s := Idle)), Long5Test)
    case Long5Test =>
      if id !in s.gpio.high && c[k].longPress then GoTask(s, Long5Call) else s.(task := NoTask)
    case Long5Call => Log(s.(task := NoTask), k, LongCall)
  }

  // ----- steps and runs ------------------------------------------------------------------------

  /**
   * The handler is not entered again while it runs, and nothing else of the driver runs meanwhile.
   * Callbacks run one after another; a timer starts its callback only when it is due.
   */
  predicate Enabled(c: Config, s: System, l: Label) {
    && WellFormed(c, s)
    && match l
       case Pin(_, _) => true
       case Tick(_) => true
       case EnterIsr => s.isr.NoIsr?
       case IsrStep => s.isr.InIsr?
       case Fire50(k) =>
         s.isr.NoIsr? && s.task.NoTask? && k < |c| && s.keys[k].key50ms.Armed? && s.keys[k].key50ms.due <= s.now
       case Fire5(k) =>
         s.isr.NoIsr? && s.task.NoTask? && k < |c| && s.keys[k].key5s.Armed? && s.keys[k].key5s.due <= s.now
       case TaskStep => s.isr.NoIsr? && s.task.InTask?
  }

  function Next(c: Config, s: System, l: Label): (s': System)
    requires Enabled(c, s, l)
    ensures WellFormed(c, s')
  {
    match l
    case Pin(id, level) => s.(gpio := SetPin(s.gpio, id, level))
    case Tick(ms) => s.(now := s.now + ms)
    case EnterIsr => s.(isr := InIsr(s.gpio.status, 0, Test))
    case IsrStep => RunIsrStatement(c, s)
    case Fire50(k) =>
      SetKey(s, k, s.keys[k].(key50ms := Idle)).(task := InTask(k, Up50Disarm))
    case Fire5(k) =>
      SetKey(s, k, s.keys[k].(key5s := Idle)).(task := InTask(k, Long5Disarm))
    case TaskStep => RunTaskStatement(c, s)
  }

  /** The state that `key_init` leaves. */
  predicate Initial(c: Config, s: System) {
    && |s.keys| == |c|
    && s.isr.NoIsr? && s.task.NoTask? && s.log == []
    && (forall i :: 0 <= i < |c| ==> s.keys[i] == Key(1, Idle, Idle))
    && (forall i :: 0 <= i < |c| ==> Intr(s.gpio, c[i].gpio) == NegEdge && c[i].gpio !in s.gpio.status)
  }

  predicate Legal(c: Config, s: System, run: seq<Label>)
    decreases |run|
  {
    run != [] ==> Enabled(c, s, run[0]) && Legal(c, Next(c, s, run[0]), run[1..])
  }

  function After(c: Config, s: System, run: seq<Label>): System
    requires Legal(c, s, run)
    decreases |run|
  {
    if run == [] then s else After(c, Next(c, s, run[0]), run[1..])
  }

  /** The keys use different pins. */
  ghost predicate DistinctPins(c: Config) {
    forall i, j :: 0 <= i < j < |c| ==> c[i].gpio != c[j].gpio
  }

  // ----- latched bits --------------------------------------------------------------------------

  /** Only a handler whose snapshot holds a status bit clears it. */
  lemma StatusBitStep(c: Config, s: System, l: Label, id: nat)
    requires Enabled(c, s, l) && id in s.gpio.status
    requires s.isr.InIsr? ==> id !in s.isr.snap
    ensures id in Next(c, s, l).gpio.status
    ensures l != EnterIsr ==>
      var isr := Next(c, s, l).isr; isr.InIsr? ==> s.isr.InIsr? && isr.snap == s.isr.snap
  {
  }

  /**
   * A status bit that is latched after the handler has taken its snapshot survives the rest of
   * that handler and everything else up to the next entry of the handler.
   */
  lemma {:induction false} LateBitSurvives(c: Config, s: System, run: seq<Label>, id: nat)
    requires Legal(c, s, run) && EnterIsr !in run
    requires id in s.gpio.status && (s.isr.InIsr? ==> id !in s.isr.snap)
    ensures id in After(c, s, run).gpio.status
    decreases |run|
  {
    if run != [] {
      StatusBitStep(c, s, run[0], id);
      LateBitSurvives(c, Next(c, s, run[0]), run[1..], id);
    }
  }
}
