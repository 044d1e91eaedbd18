/** The functions of `app/driver/key.c` on objects, each as an uninterrupted run of its statements. */
module KeyDriver {
  import opened KeyModel
  import opened KeySingle
  import opened KeyWords
  import opened KeyHistory
  import opened KeyProjection
  import opened KeyAtomic

  // ----- uninterrupted runs of statements ----------------------------------------------------

  /** The handler runs to its end. */
  function FinishHandler(c: Config, s: System): (r: System)
    requires WellFormed(c, s)
    ensures WellFormed(c, r) && r.isr.NoIsr?
    decreases if s.isr.NoIsr? then 0 else 1 + 10 * (|c| - s.isr.i) + Rank(s.isr.pc)
  {
    if s.isr.NoIsr? then s else FinishHandler(c, Next(c, s, IsrStep))
  }

  /** A callback runs to its end. */
  function FinishCallback(c: Config, s: System): (r: System)
    requires WellFormed(c, s) && s.isr.NoIsr?
    ensures WellFormed(c, r) && r.isr.NoIsr? && r.task.NoTask?
    decreases if s.task.NoTask? then 0 else TaskRank(s.task.pc)
  {
    if s.task.NoTask? then s else FinishCallback(c, Next(c, s, TaskStep))
  }

  /** The handler is about to test key `i + 1`, with these keys, registers and history. */
  function Served(s: System, i: nat, snap: set<nat>, keys: seq<Key>, gpio: Gpio, log: seq<Event>): System {
    System(keys, gpio, InIsr(snap, i + 1, Test), s.task, s.now, log)
  }

  /** What the handler does for the key it has reached. */
  function HandleKey(c: Config, s: System): (r: System)
    requires WellFormed(c, s) && s.isr.InIsr? && s.isr.i < |c|
    ensures WellFormed(c, r)
  {
    var i, snap, id, key := s.isr.i, s.isr.snap, c[s.isr.i].gpio, s.keys[s.isr.i];
    if id !in snap then Served(s, i, snap, s.keys, s.gpio, s.log) else
      var g := ClearBits(SetIntr(s.gpio, id, Disable), snap * {id});
      if key.level == 1 then
        Served(s, i, snap, s.keys[i := Key(0, Armed(s.now + 5000), key.key50ms)], SetIntr(g, id, PosEdge),
               s.log + [Event(i, Press, s.now)])
      else
        Served(s, i, snap, s.keys[i := key.(key50ms := Armed(s.now + 50))], g, s.log)
  }

  lemma OneStatement(c: Config, s: System)
    requires WellFormed(c, s) && s.isr.InIsr?
    ensures FinishHandler(c, s) == FinishHandler(c, RunIsrStatement(c, s))
  {
  }

  lemma {:induction false} HandlePress(c: Config, s: System)
    requires WellFormed(c, s) && s.isr.InIsr? && s.isr.pc == Disarm5
    ensures var i, id := s.isr.i, c[s.isr.i].gpio;
      FinishHandler(c, s) == FinishHandler(c,
        Served(s, i, s.isr.snap, s.keys[i := Key(0, Armed(s.now + 5000), s.keys[i].key50ms)],
               SetIntr(s.gpio, id, PosEdge), s.log + [Event(i, Press, s.now)]))
  {
    var s1 := RunIsrStatement(c, s);
    var s2 := RunIsrStatement(c, s1);
    var s3 := RunIsrStatement(c, s2);
    OneStatement(c, s);
    OneStatement(c, s1);
    OneStatement(c, s2);
    OneStatement(c, s3);
    hide FinishHandler;
    var i := s.isr.i;
    assert s3.keys == s.keys[i := Key(0, Armed(s.now + 5000), s.keys[i].key50ms)];
  }

  lemma {:induction false} HandleRelease(c: Config, s: System)
    requires WellFormed(c, s) && s.isr.InIsr? && s.isr.pc == Disarm50
    ensures var i := s.isr.i;
      FinishHandler(c, s) == FinishHandler(c,
        Served(s, i, s.isr.snap, s.keys[i := s.keys[i].(key50ms := Armed(s.now + 50))], s.gpio, s.log))
  {
    var s1 := RunIsrStatement(c, s);
    OneStatement(c, s);
    OneStatement(c, s1);
    hide FinishHandler;
    var i := s.isr.i;
    assert RunIsrStatement(c, s1).keys == s.keys[i := s.keys[i].(key50ms := Armed(s.now + 50))];
  }

  /** The handler has cleared the status bit and found the level of the key. */
  function Entered(s: System, g: Gpio, pc: IsrPc): System
    requires s.isr.InIsr?
  {
    System(s.keys, g, InIsr(s.isr.snap, s.isr.i, pc), s.task, s.now, s.log)
  }

  lemma {:induction false} HandleEntry(c: Config, s: System)
    requires WellFormed(c, s) && s.isr.InIsr? && s.isr.pc == Test && s.isr.i < |c|
    requires c[s.isr.i].gpio in s.isr.snap
    ensures var id := c[s.isr.i].gpio;
      FinishHandler(c, s) == FinishHandler(c,
        Entered(s, ClearBits(SetIntr(s.gpio, id, Disable), s.isr.snap * {id}),
                if s.keys[s.isr.i].level == 1 then Disarm5 else Disarm50))
  {
    var s1 := RunIsrStatement(c, s);
    var s2 := RunIsrStatement(c, s1);
    var s3 := RunIsrStatement(c, s2);
    OneStatement(c, s);
    OneStatement(c, s1);
    OneStatement(c, s2);
    OneStatement(c, s3);
    hide FinishHandler, ClearBits, SetIntr;
  }

  lemma {:induction false} HandlesHit(c: Config, s: System)
    requires WellFormed(c, s) && s.isr.InIsr? && s.isr.pc == Test && s.isr.i < |c|
    requires c[s.isr.i].gpio in s.isr.snap
    ensures FinishHandler(c, s) == FinishHandler(c, HandleKey(c, s))
  {
    var id := c[s.isr.i].gpio;
    var g := ClearBits(SetIntr(s.gpio, id, Disable), s.isr.snap * {id});
    HandleEntry(c, s);
    hide FinishHandler, ClearBits, SetIntr, RunIsrStatement;
    if s.keys[s.isr.i].level == 1 {
      HandlePress(c, Entered(s, g, Disarm5));
    } else {
      HandleRelease(c, Entered(s, g, Disarm50));
    }
  }

  /** For each key the handler does what `HandleKey` says. */
  lemma {:induction false} HandlesKey(c: Config, s: System)
    requires WellFormed(c, s) && s.isr.InIsr? && s.isr.pc == Test && s.isr.i < |c|
    ensures FinishHandler(c, s) == FinishHandler(c, HandleKey(c, s))
  {
    if c[s.isr.i].gpio in s.isr.snap {
      HandlesHit(c, s);
    } else {
      OneStatement(c, s);
    }
  }

  /**
   * The handler's loop over all keys treats each key as if it were alone: it is the parallel
   * composition of the handlers of the single keys.
   */
  lemma {:induction false} HandlerIsParallel(c: Config, s: System, j: nat)
    requires DistinctPins(c) && WellFormed(c, s) && j < |c|
    ensures Proj(c, FinishHandler(c, s), j) == FinishIsr(Proj(c, s, j))
    decreases if s.isr.NoIsr? then 0 else 1 + 10 * (|c| - s.isr.i) + Rank(s.isr.pc)
  {
    if s.isr.InIsr? {
      var s' := Next(c, s, IsrStep);
      RankDrops(c, s);
      HandlerIsParallel(c, s', j);
      assert FinishHandler(c, s) == FinishHandler(c, s');
      hide FinishHandler, Next, DistinctPins;
      if s.isr.i == j {
        OwnIsr(c, s, j);
        FinishStep(Proj(c, s, j));
      } else {
        PinsDiffer(c, s.isr.i, j);
        OtherIsr(c, s, j);
      }
    }
  }

  /** A callback changes its own key as if that were alone, and no other key. */
  lemma {:induction false} CallbackIsAlone(c: Config, s: System, j: nat)
    requires DistinctPins(c) && WellFormed(c, s) && s.isr.NoIsr? && j < |c|
    ensures Proj(c, FinishCallback(c, s), j) == FinishTask(c[j], Proj(c, s, j))
    ensures s.task.InTask? && s.task.k != j ==> Proj(c, FinishCallback(c, s), j) == Proj(c, s, j)
    decreases if s.task.NoTask? then 0 else TaskRank(s.task.pc)
  {
    NotItsTask(c, s, j);
    if s.task.InTask? {
      var s' := Next(c, s, TaskStep);
      TaskRankDrops(c, s);
      assert FinishCallback(c, s) == FinishCallback(c, s');
      hide FinishCallback, Next, DistinctPins, Proj, FinishTask, TaskRank, WellFormed;
      CallbackIsAlone(c, s', j);
      if s.task.k == j {
        OwnTask(c, s, j);
        FinishTaskStep(c[j], Proj(c, s, j));
      } else {
        PinsDiffer(c, s.task.k, j);
        OtherTask(c, s, j);
      }
    }
  }

  lemma NotItsTask(c: Config, s: System, j: nat)
    requires WellFormed(c, s) && j < |c|
    ensures !(s.task.InTask? && s.task.k == j) ==> FinishTask(c[j], Proj(c, s, j)) == Proj(c, s, j)
  {
  }

  lemma FinishTaskStep(c: KeyConfig, k: K)
    requires k.task.In?
    ensures FinishTask(c, k) == FinishTask(c, KTaskStatement(c, k))
  {
  }

  lemma TaskRankDrops(c: Config, s: System)
    requires WellFormed(c, s) && s.isr.NoIsr? && s.task.InTask?
    ensures var s' := Next(c, s, TaskStep);
      && s'.isr.NoIsr? && (s'.task.InTask? ==> s'.task.k == s.task.k && TaskRank(s'.task.pc) < TaskRank(s.task.pc))
  {
  }

  lemma FinishStep(k: K)
    requires KEnabled(k, KIsrStep)
    ensures FinishIsr(k) == FinishIsr(KIsrStatement(k))
  {
  }

  lemma RankDrops(c: Config, s: System)
    requires WellFormed(c, s) && s.isr.InIsr?
    ensures var s' := Next(c, s, IsrStep);
      s'.isr.InIsr? ==>
        10 * (|c| - s'.isr.i) + Rank(s'.isr.pc) < 10 * (|c| - s.isr.i) + Rank(s.isr.pc)
  {
  }

  /** Whenever neither the handler nor a callback runs, every key is in one of the three modes. */
  lemma {:induction false} RestingModes(c: Config, s0: System, run: seq<Label>, s: System, j: nat)
    requires DistinctPins(c) && ReachedBy(c, s0, run, s) && j < |c|
    requires s.isr.NoIsr? && s.task.NoTask?
    ensures WellFormed(c, s) && Reachable(Atomic(Proj(c, s, j)))
  {
    KeyHistoryHolds(c, s0, run, s, j);
    ReachableModes(Atomic(Proj(c, s, j)));
    hide Reachable;
  }

  // ----- the objects ------------------------------------------------------------------------------

  /** `struct single_key_param` */
  class SingleKey {
    const gpioId: nat
    const shortPress: bool
    const longPress: bool
    var keyLevel: nat
    var key5s: Timer
    var key50ms: Timer

    /** `key_init_single`: all other fields are zero. */
    constructor (gpioId: nat, longPress: bool, shortPress: bool)
      ensures this.gpioId == gpioId && this.shortPress == shortPress && this.longPress == longPress
      ensures keyLevel == 0 && key5s == Idle && key50ms == Idle
    {
      this.gpioId, this.shortPress, this.longPress := gpioId, shortPress, longPress;
      keyLevel, key5s, key50ms := 0, Idle, Idle;
    }
  }

  /** The GPIO registers and the clock, and the history of what the driver has done. */
  class Board {
    var intr: map<nat, IntType>
    var status: set<nat>
    var high: set<nat>
    var now: nat
    ghost var log: seq<Event>

    ghost function Pins(): Gpio
      reads this
    {
      Gpio(intr, status, high)
    }

    /** `gpio_pin_intr_state_set` */
    method PinIntrStateSet(id: nat, t: IntType)
      modifies `intr
      ensures Pins() == SetIntr(old(Pins()), id, t)
    {
      intr := intr[id := t];
    }

    /** A write to GPIO_STATUS_W1TC */
    method WriteStatusW1tc(mask: set<nat>)
      modifies `status
      ensures Pins() == ClearBits(old(Pins()), mask)
    {
      status := status - mask;
    }
  }

  /** `struct keys_param` and the hardware it works on */
  class Driver {
    const keys: seq<SingleKey>
    const board: Board

    constructor (keys: seq<SingleKey>, board: Board)
      ensures this.keys == keys && this.board == board
    {
      this.keys, this.board := keys, board;
    }

    /** The keys are different objects. */
    ghost predicate Valid() {
      forall i, j :: 0 <= i < j < |keys| ==> keys[i] != keys[j]
    }

    ghost function Configuration(): (c: Config)
      ensures |c| == |keys|
      ensures forall i :: 0 <= i < |keys| ==>
        c[i] == KeyConfig(keys[i].gpioId, keys[i].shortPress, keys[i].longPress)
    {
      seq(|keys|, i requires 0 <= i < |keys| => KeyConfig(keys[i].gpioId, keys[i].shortPress, keys[i].longPress))
    }

    ghost function KeyStates(): (s: seq<Key>)
      reads keys
      ensures |s| == |keys|
      ensures forall i :: 0 <= i < |keys| ==> s[i] == Key(keys[i].keyLevel, keys[i].key5s, keys[i].key50ms)
    {
      seq(|keys|, i requires 0 <= i < |keys| reads keys => Key(keys[i].keyLevel, keys[i].key5s, keys[i].key50ms))
    }

    ghost function View(isr: Isr, task: Task): System
      reads keys, board
    {
      System(KeyStates(), board.Pins(), isr, task, board.now, board.log)
    }

    /** `key_init`: runs start in an initial state. */
    method KeyInit()
      requires Valid() && board.log == []
      requires forall k <- keys :: k.key5s == Idle && k.key50ms == Idle
      modifies keys, board
      ensures Initial(Configuration(), View(NoIsr, NoTask))
    {
      for i := 0 to |keys|
        invariant board.log == []
        invariant forall k <- keys :: k.key5s == Idle && k.key50ms == Idle
        invariant forall j :: 0 <= j < i ==> keys[j].keyLevel == 1
        invariant forall j :: 0 <= j < i ==>
          Intr(board.Pins(), keys[j].gpioId) == NegEdge && keys[j].gpioId !in board.status
      {
        keys[i].keyLevel := 1;
        board.PinIntrStateSet(keys[i].gpioId, Disable);
        board.WriteStatusW1tc({keys[i].gpioId});
        board.PinIntrStateSet(keys[i].gpioId, NegEdge);
      }
    }

    /** Lines 141 to 158, for one key of the snapshot. */
    method ServeKey(i: nat, gpioStatus: set<nat>, ghost task: Task)
      requires Valid() && i < |keys| && keys[i].gpioId in gpioStatus
      requires WellFormed(Configuration(), View(InIsr(gpioStatus, i, Test), task))
      modifies keys, board
      ensures View(InIsr(gpioStatus, i + 1, Test), task)
           == HandleKey(Configuration(), old(View(InIsr(gpioStatus, i, Test), task)))
    {
      ghost var before := KeyStates();
      var key := keys[i];
      board.PinIntrStateSet(key.gpioId, Disable);
      board.WriteStatusW1tc(gpioStatus * {key.gpioId});
      if key.keyLevel == 1 {
        key.key5s := Idle;
        key.key5s := Armed(board.now + 5000);
        board.log := board.log + [Event(i, Press, board.now)];
        key.keyLevel := 0;
        board.PinIntrStateSet(key.gpioId, PosEdge);
        assert KeyStates() == before[i := Key(0, Armed(board.now + 5000), before[i].key50ms)];
      } else {
        key.key50ms := Idle;
        key.key50ms := Armed(board.now + 50);
        assert KeyStates() == before[i := before[i].(key50ms := Armed(board.now + 50))];
      }
    }

    /** `key_intr_handler` */
    method KeyIntrHandler(ghost task: Task)
      requires Valid() && WellFormed(Configuration(), View(NoIsr, task))
      modifies keys, board
      ensures View(NoIsr, task)
           == FinishHandler(Configuration(), Next(Configuration(), old(View(NoIsr, task)), EnterIsr))
    {
      ghost var c := Configuration();
      var gpioStatus := board.status;
      ghost var start := View(InIsr(gpioStatus, 0, Test), task);
      for i := 0 to |keys|
        invariant WellFormed(c, View(InIsr(gpioStatus, i, Test), task))
        invariant FinishHandler(c, View(InIsr(gpioStatus, i, Test), task)) == FinishHandler(c, start)
      {
        HandlesKey(c, View(InIsr(gpioStatus, i, Test), task));
        hide FinishHandler;
        if keys[i].gpioId in gpioStatus {
          ServeKey(i, gpioStatus, task);
        }
      }
      OneStatement(c, View(InIsr(gpioStatus, |keys|, Test), task));
    }

    /** `key_50ms_cb`; its timer has just fired. */
    method Key50msCb(k: nat)
      requires Valid() && k < |keys|
      modifies keys, board
      ensures View(NoIsr, NoTask)
           == FinishCallback(Configuration(), old(View(NoIsr, InTask(k, Up50Disarm))))
    {
      hide FinishCallback;
      ghost var c := Configuration();
      ghost var s0 := View(NoIsr, InTask(k, Up50Disarm));
      var key := keys[k];
      key.key50ms := Idle;
      ghost var s1 := View(NoIsr, InTask(k, Up50Test));
      OneCallbackStatement(c, s0);
      assert s1 == RunTaskStatement(c, s0);
      hide RunTaskStatement;
      if key.gpioId in board.high {
        key.key5s := Idle;
        key.keyLevel := 1;
        board.log := board.log + [Event(k, Release, board.now)];
        ghost var s4 := View(NoIsr, InTask(k, Up50NegEdge));
        CheckedHigh(c, s1, s4);
        board.PinIntrStateSet(key.gpioId, NegEdge);
        if key.shortPress {
          board.log := board.log + [Event(k, ShortCall, board.now)];
        }
        CheckedEnd(c, s4, View(NoIsr, NoTask));
      } else {
        board.PinIntrStateSet(key.gpioId, PosEdge);
        CheckedLow(c, s1, View(NoIsr, NoTask));
      }
    }

    /** `key_5s_cb`; its timer has just fired. */
    method Key5sCb(k: nat)
      requires Valid() && k < |keys|
      modifies keys, board
      ensures View(NoIsr, NoTask)
           == FinishCallback(Configuration(), old(View(NoIsr, InTask(k, Long5Disarm))))
    {
      hide FinishCallback;
      ghost var c := Configuration();
      ghost var s0 := View(NoIsr, InTask(k, Long5Disarm));
      var key := keys[k];
      key.key5s := Idle;
      ghost var s1 := View(NoIsr, InTask(k, Long5Test));
      OneCallbackStatement(c, s0);
      assert s1 == RunTaskStatement(c, s0);
      if key.gpioId !in board.high {
        if key.longPress {
          board.log := board.log + [Event(k, LongCall, board.now)];
        }
      }
      LongEnd(c, s1, View(NoIsr, NoTask));
    }
  }

  // ----- the callbacks, statement by statement ----------------------------------------------------

  lemma OneCallbackStatement(c: Config, s: System)
    requires WellFormed(c, s) && s.isr.NoIsr? && s.task.InTask?
    ensures FinishCallback(c, s) == FinishCallback(c, RunTaskStatement(c, s))
  {
  }

  lemma {:induction false} CheckedHigh(c: Config, s: System, r: System)
    requires WellFormed(c, s) && s.isr.NoIsr? && s.task.InTask? && s.task.pc == Up50Test
    requires var k := s.task.k;
      c[k].gpio in s.gpio.high &&
      r == s.(keys := s.keys[k := Key(1, Idle, s.keys[k].key50ms)], task := InTask(k, Up50NegEdge),
              log := s.log + [Event(k, Release, s.now)])
    ensures FinishCallback(c, s) == FinishCallback(c, r)
  {
    var s1 := RunTaskStatement(c, s);
    var s2 := RunTaskStatement(c, s1);
    OneCallbackStatement(c, s);
    OneCallbackStatement(c, s1);
    OneCallbackStatement(c, s2);
    hide FinishCallback;
    var k := s.task.k;
    assert RunTaskStatement(c, s2).keys == s.keys[k := Key(1, Idle, s.keys[k].key50ms)];
  }

  lemma {:induction false} CheckedEnd(c: Config, s: System, r: System)
    requires WellFormed(c, s) && s.isr.NoIsr? && s.task.InTask? && s.task.pc == Up50NegEdge
    requires var k := s.task.k;
      r == s.(gpio := SetIntr(s.gpio, c[k].gpio, NegEdge), task := NoTask,
              log := if c[k].shortPress then s.log + [Event(k, ShortCall, s.now)] else s.log)
    ensures FinishCallback(c, s) == r
  {
    OneCallbackStatement(c, s);
    if c[s.task.k].shortPress {
      OneCallbackStatement(c, RunTaskStatement(c, s));
    }
  }

  lemma {:induction false} CheckedLow(c: Config, s: System, r: System)
    requires WellFormed(c, s) && s.isr.NoIsr? && s.task.InTask? && s.task.pc == Up50Test
    requires var id := c[s.task.k].gpio;
      id !in s.gpio.high && r == s.(gpio := SetIntr(s.gpio, id, PosEdge), task := NoTask)
    ensures FinishCallback(c, s) == r
  {
    OneCallbackStatement(c, s);
    OneCallbackStatement(c, RunTaskStatement(c, s));
  }

  lemma {:induction false} LongEnd(c: Config, s: System, r: System)
    requires WellFormed(c, s) && s.isr.NoIsr? && s.task.InTask? && s.task.pc == Long5Test
    requires var k := s.task.k;
      r == s.(task := NoTask,
              log := if c[k].gpio !in s.gpio.high && c[k].longPress then s.log + [Event(k, LongCall, s.now)]
                     else s.log)
    ensures FinishCallback(c, s) == r
  {
    OneCallbackStatement(c, s);
    var s1 := RunTaskStatement(c, s);
    if s1.task.InTask? {
      OneCallbackStatement(c, s1);
    }
  }
}
