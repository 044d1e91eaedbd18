/**
 * One key with handler and callbacks as atomic steps: the states it can be in, how it returns to
 * rest, and when a release goes unnoticed.
 */
module KeyAtomic {
  import opened KeyModel
  import opened KeySingle

  /** Level, interrupt type, status bit, pin, and which timers are armed. */
  datatype A = A(level: nat, intr: IntType, status: bool, high: bool, armed50: bool, armed5: bool)

  datatype ALabel = APin(level: bool) | AIsr | A50 | A5

  // ----- atomic steps ----------------------------------------------------------------------

  function PinTo(a: A, level: bool): A {
    var latch := level != a.high && a.intr == if level then PosEdge else NegEdge;
    a.(high := level, status := a.status || latch)
  }

  /** `key_intr_handler`, for one key. */
  function ServeIsr(a: A): A {
    if !a.status then a
    else if a.level == 1 then a.(status := false, level := 0, intr := PosEdge, armed5 := true)
    else a.(status := false, intr := Disable, armed50 := true)
  }

  /** `key_50ms_cb` */
  function Check50(a: A): A {
    if a.high then a.(armed50 := false, armed5 := false, level := 1, intr := NegEdge)
    else a.(armed50 := false, intr := PosEdge)
  }

  /** `key_5s_cb` */
  function Long5(a: A): A {
    a.(armed5 := false)
  }

  predicate AEnabled(a: A, l: ALabel) {
    (l == A50 ==> a.armed50) && (l == A5 ==> a.armed5)
  }

  function ANext(a: A, l: ALabel): A {
    match l
    case APin(level) => PinTo(a, level)
    case AIsr => ServeIsr(a)
    case A50 => Check50(a)
    case A5 => Long5(a)
  }

  predicate ALegal(a: A, run: seq<ALabel>)
    decreases |run|
  {
    run != [] ==> AEnabled(a, run[0]) && ALegal(ANext(a, run[0]), run[1..])
  }

  function AAfter(a: A, run: seq<ALabel>): A
    decreases |run|
  {
    if run == [] then a else AAfter(ANext(a, run[0]), run[1..])
  }

  /** After `key_init`; the pin may have either level. */
  predicate AInitial(a: A) {
    a == A(1, NegEdge, false, a.high, false, false)
  }

  ghost predicate Reachable(a: A) {
    exists a0, run :: AInitial(a0) && ALegal(a0, run) && AAfter(a0, run) == a
  }

  // ----- the three modes ---------------------------------------------------------------------

  predicate AIdle(a: A) {
    a.level == 1 && a.intr == NegEdge && !a.armed50 && !a.armed5
  }

  predicate AHeld(a: A) {
    a.level == 0 && a.intr == PosEdge && !a.armed50
  }

  predicate ABouncing(a: A) {
    a.level == 0 && a.intr == Disable && a.armed50 && !a.status
  }

  predicate InMode(a: A) {
    AIdle(a) || AHeld(a) || ABouncing(a)
  }

  lemma {:induction false} ModeRun(a: A, run: seq<ALabel>)
    requires InMode(a) && ALegal(a, run)
    ensures InMode(AAfter(a, run))
    decreases |run|
  {
    if run != [] {
      ModeRun(ANext(a, run[0]), run[1..]);
    }
  }

  lemma {:induction false} ExtendRun(a: A, run: seq<ALabel>, l: ALabel)
    requires ALegal(a, run) && AEnabled(AAfter(a, run), l)
    ensures ALegal(a, run + [l]) && AAfter(a, run + [l]) == ANext(AAfter(a, run), l)
    decreases |run|
  {
    if run == [] {
      assert [l][1..] == [];
      assert run + [l] == [l];
    } else {
      assert (run + [l])[1..] == run[1..] + [l];
      ExtendRun(ANext(a, run[0]), run[1..], l);
    }
  }

  lemma {:induction false} Extend(a: A, l: ALabel)
    requires Reachable(a) && AEnabled(a, l)
    ensures Reachable(ANext(a, l))
  {
    var a0, run :| AInitial(a0) && ALegal(a0, run) && AAfter(a0, run) == a;
    ExtendRun(a0, run, l);
  }

  lemma {:induction false} IdleReachable(high: bool, status: bool)
    ensures Reachable(A(1, NegEdge, status, high, false, false))
  {
    var low, up := A(1, NegEdge, false, false, false, false), A(1, NegEdge, false, true, false, false);
    assert ALegal(low, []) && AAfter(low, []) == low && ALegal(up, []) && AAfter(up, []) == up;
    Extend(up, APin(false));
    Extend(ANext(up, APin(false)), APin(true));
  }

  lemma {:induction false} HeldReachable(high: bool, status: bool, armed5: bool)
    ensures Reachable(A(0, PosEdge, status, high, false, armed5))
  {
    IdleReachable(high, true);
    IdleReachable(false, true);
    var a := A(1, NegEdge, true, high, false, false);
    Extend(a, AIsr);
    var low := A(0, PosEdge, false, false, false, true);
    Extend(A(1, NegEdge, true, false, false, false), AIsr);
    Extend(low, APin(true));
    var up := A(0, PosEdge, true, true, false, true);
    Extend(up, APin(false));
    var r := A(0, PosEdge, status, high, false, true);
    assert Reachable(r);
    if !armed5 {
      Extend(r, A5);
    }
  }

  lemma {:induction false} BouncingReachable(high: bool, armed5: bool)
    ensures Reachable(A(0, Disable, false, high, true, armed5))
  {
    HeldReachable(true, true, armed5);
    Extend(A(0, PosEdge, true, true, false, armed5), AIsr);
    Extend(A(0, Disable, false, true, true, armed5), APin(false));
  }

  /** The reachable states are exactly the three modes; the 5 s timer is armed only at level 0. */
  lemma {:induction false} ReachableModes(a: A)
    ensures Reachable(a) <==> InMode(a)
    ensures Reachable(a) && a.armed5 ==> a.level == 0
  {
    if Reachable(a) {
      var a0, run :| AInitial(a0) && ALegal(a0, run) && AAfter(a0, run) == a;
      ModeRun(a0, run);
    }
    if InMode(a) {
      IdleReachable(a.high, a.status);
      HeldReachable(a.high, a.status, a.armed5);
      BouncingReachable(a.high, a.armed5);
    }
  }

  // ----- no trap -------------------------------------------------------------------------------

  /** From every reachable state a served low level followed by a served stable high level leads to rest. */
  lemma {:induction false} NoTrap(a: A) returns (run: seq<ALabel>)
    requires Reachable(a)
    ensures run == [APin(false), AIsr, APin(true), AIsr] || run == [APin(false), AIsr, APin(true), AIsr, A50]
    ensures ALegal(a, run)
    ensures AIdle(AAfter(a, run)) && AAfter(a, run).high && Quiescent(AAfter(a, run))
  {
    ReachableModes(a);
    hide Reachable;
    var a1 := ANext(a, APin(false));
    var a2 := ANext(a1, AIsr);
    var a3 := ANext(a2, APin(true));
    var a4 := ANext(a3, AIsr);
    var r1 := [APin(false)];
    ExtendRun(a, [], APin(false));
    assert [] + [APin(false)] == r1;
    ExtendRun(a, r1, AIsr);
    var r2 := r1 + [AIsr];
    ExtendRun(a, r2, APin(true));
    var r3 := r2 + [APin(true)];
    ExtendRun(a, r3, AIsr);
    run := r3 + [AIsr];
    if a4.armed50 {
      ExtendRun(a, run, A50);
      run := run + [A50];
    }
  }

  // ----- when a release is noticed ----------------------------------------------------------------

  /** Nothing is left to serve but the 5 s timer. */
  predicate Quiescent(a: A) {
    !a.status && !a.armed50
  }

  /** Readable from the state: the check is pending, or the status bit is what the level calls for. */
  predicate WillReturn(a: A) {
    a.armed50 || (a.status <==> a.level == 0)
  }

  predicate Service(run: seq<ALabel>) {
    forall i :: 0 <= i < |run| ==> !run[i].APin?
  }

  lemma {:induction false} ReturnRun(a: A, run: seq<ALabel>)
    requires InMode(a) && a.high && Service(run) && ALegal(a, run)
    ensures WillReturn(AAfter(a, run)) == WillReturn(a)
    decreases |run|
  {
    if run != [] {
      ReturnRun(ANext(a, run[0]), run[1..]);
    }
  }

  /**
   * With the pin high for good, every way of serving what is left ends with the key up: exactly
   * when `WillReturn` holds.  Otherwise the key counts as pressed although its pin is high.
   */
  lemma {:induction false} ReleaseNoticed(a: A, run: seq<ALabel>)
    requires Reachable(a) && a.high && Service(run) && ALegal(a, run) && Quiescent(AAfter(a, run))
    ensures AAfter(a, run).level == 1 <==> WillReturn(a)
  {
    ReachableModes(a);
    ReturnRun(a, run);
    ModeRun(a, run);
  }

  lemma {:induction false} ServiceKeepsPin(a: A, run: seq<ALabel>)
    requires Service(run) && ALegal(a, run)
    ensures AAfter(a, run).high == a.high
    decreases |run|
  {
    if run != [] {
      ServiceKeepsPin(ANext(a, run[0]), run[1..]);
    }
  }

  lemma {:induction false} ReachableRun(a: A, run: seq<ALabel>)
    requires Reachable(a) && ALegal(a, run)
    ensures Reachable(AAfter(a, run))
    decreases |run|
  {
    hide Reachable, AEnabled, ANext;
    if run != [] {
      Extend(a, run[0]);
      ReachableRun(ANext(a, run[0]), run[1..]);
    }
  }

  /**
   * From every reachable state, whenever the pin is low until nothing is left to serve and then
   * high until nothing is left to serve, the key is at rest, however the serving is scheduled.
   */
  lemma {:induction false} AlwaysReturns(a: A, low: seq<ALabel>, up: seq<ALabel>)
    requires Reachable(a) && Service(low) && Service(up)
    requires var a1 := PinTo(a, false);
      ALegal(a1, low) && Quiescent(AAfter(a1, low)) &&
      var a2 := PinTo(AAfter(a1, low), true);
      ALegal(a2, up) && Quiescent(AAfter(a2, up))
    ensures var r := AAfter(PinTo(AAfter(PinTo(a, false), low), true), up);
      AIdle(r) && r.high && Quiescent(r)
  {
    var a1 := PinTo(a, false);
    var b := AAfter(a1, low);
    var a2 := PinTo(b, true);
    Extend(a, APin(false));
    ReachableRun(a1, low);
    ServiceKeepsPin(a1, low);
    Extend(b, APin(true));
    ReachableModes(b);
    ReachableRun(a2, up);
    ServiceKeepsPin(a2, up);
    ReachableModes(AAfter(a2, up));
    hide Reachable;
    assert WillReturn(a2);
    ReleaseNoticed(a2, up);
  }

  /** Serving comes to an end: one handler run and one check are enough. */
  lemma {:induction false} ServiceEnds(a: A) returns (run: seq<ALabel>)
    requires Reachable(a) && a.high
    ensures Service(run) && ALegal(a, run) && Quiescent(AAfter(a, run))
  {
    ReachableModes(a);
    hide Reachable;
    ExtendRun(a, [], AIsr);
    assert [] + [AIsr] == [AIsr];
    run := [AIsr];
    if AAfter(a, run).armed50 {
      ExtendRun(a, run, A50);
      run := run + [A50];
    }
  }

  /** A key that goes down and up before the handler runs counts as pressed from then on. */
  lemma {:induction false} GlitchSticks()
    ensures var a0 := A(1, NegEdge, false, true, false, false);
      var a := AAfter(a0, [APin(false), APin(true), AIsr]);
      AInitial(a0) && a.high && a.level == 0 && Quiescent(a) && !WillReturn(a)
  {
    var a0 := A(1, NegEdge, false, true, false, false);
    assert [APin(false), APin(true), AIsr][1..] == [APin(true), AIsr];
    assert [APin(true), AIsr][1..] == [AIsr];
    assert [AIsr][1..] == [];
  }

  // ----- atomic steps are statements without interruption -------------------------------------------

  /** Neither the handler nor a callback is at work. */
  predicate Quiet(k: K) {
    k.isr.Out? && k.task.Away?
  }

  function Atomic(k: K): A {
    A(k.key.level, k.intr, k.status, k.high, k.key.key50ms.Armed?, k.key.key5s.Armed?)
  }

  function Rank(pc: IsrPc): nat {
    match pc
    case Test => 9
    case DisableIntr => 8
    case ClearStatus => 7
    case TestLevel => 6
    case Disarm5 => 5
    case Arm5 => 4
    case LevelDown => 3
    case SetPosEdge => 2
    case Disarm50 => 5
    case Arm50 => 4
  }

  /** The handler runs to its end for the key. */
  function FinishIsr(k: K): K
    requires KOk(k)
    decreases if k.isr.Out? then 0 else if k.isr.Ahead? then 10 else Rank(k.isr.pc)
  {
    if k.isr.Out? then k else FinishIsr(KIsrStatement(k))
  }

  function TaskRank(pc: TaskPc): nat {
    match pc
    case Up50Disarm => 7
    case Up50Test => 6
    case Up50Disarm5 => 5
    case Up50Level => 4
    case Up50NegEdge => 3
    case Up50Call => 2
    case Up50PosEdge => 2
    case Long5Disarm => 4
    case Long5Test => 3
    case Long5Call => 2
  }

  /** The callback runs to its end for the key. */
  function FinishTask(c: KeyConfig, k: K): K
    decreases if k.task.Away? then 0 else TaskRank(k.task.pc)
  {
    if k.task.Away? then k else FinishTask(c, KTaskStatement(c, k))
  }

  lemma {:induction false} FinishIsrFromPress(k: K)
    requires KOk(k) && k.isr == At(Disarm5)
    ensures FinishIsr(k) ==
      k.(key := Key(0, Armed(k.now + 5000), k.key.key50ms), intr := PosEdge, isr := Out,
         log := k.log + [KeyEvent(Press, k.now)])
  {
    var k1 := KIsrStatement(k);
    var k2 := KIsrStatement(k1);
    var k3 := KIsrStatement(k2);
    var k4 := KIsrStatement(k3);
    assert FinishIsr(k3) == FinishIsr(k4);
    assert FinishIsr(k1) == FinishIsr(k2);
  }

  lemma {:induction false} FinishIsrFromRelease(k: K)
    requires KOk(k) && k.isr == At(Disarm50)
    ensures FinishIsr(k) == k.(key := k.key.(key50ms := Armed(k.now + 50)), isr := Out)
  {
    var k1 := KIsrStatement(k);
    assert FinishIsr(k1) == FinishIsr(KIsrStatement(k1));
  }

  /** From line 141 on: the branch for a released key. */
  lemma {:induction false} FinishPress(k: K)
    requires k.isr == At(DisableIntr) && k.key.level == 1
    ensures FinishIsr(k) ==
      k.(key := Key(0, Armed(k.now + 5000), k.key.key50ms), intr := PosEdge, status := false, isr := Out,
         log := k.log + [KeyEvent(Press, k.now)])
  {
    var k2 := KIsrStatement(k);
    var k3 := KIsrStatement(k2);
    var k4 := KIsrStatement(k3);
    assert FinishIsr(k) == FinishIsr(k2);
    assert FinishIsr(k2) == FinishIsr(k3);
    FinishIsrFromPress(k4);
  }

  /** From line 141 on: the branch for a held key. */
  lemma {:induction false} FinishRelease(k: K)
    requires k.isr == At(DisableIntr) && k.key.level != 1
    ensures FinishIsr(k) ==
      k.(key := k.key.(key50ms := Armed(k.now + 50)), intr := Disable, status := false, isr := Out)
  {
    var k2 := KIsrStatement(k);
    var k3 := KIsrStatement(k2);
    var k4 := KIsrStatement(k3);
    assert FinishIsr(k) == FinishIsr(k2);
    assert FinishIsr(k2) == FinishIsr(k3);
    FinishIsrFromRelease(k4);
  }

  /** A change of the pin latches the same edges. */
  lemma PinIsAtomic(k: K, level: bool)
    ensures Atomic(KSetPin(k, level)) == PinTo(Atomic(k), level)
    ensures var k' := KSetPin(k, level);
      && k'.high == level
      && (k'.status <==> k.status || (k.high && !level && k.intr == NegEdge) || (!k.high && level && k.intr == PosEdge))
      && k' == k.(high := level, status := k'.status)
  {
  }

  /** The handler, not interrupted by pins or time, is the atomic step. */
  lemma {:induction false} IsrIsAtomic(k: K)
    requires Quiet(k)
    ensures Quiet(FinishIsr(k.(isr := Ahead(k.status))))
    ensures Atomic(FinishIsr(k.(isr := Ahead(k.status)))) == ServeIsr(Atomic(k))
  {
    var k0 := k.(isr := Ahead(k.status));
    var k1 := KIsrStatement(k0);
    assert FinishIsr(k0) == FinishIsr(k1);
    if k.status {
      if k.key.level == 1 {
        FinishPress(k1);
      } else {
        FinishRelease(k1);
      }
    }
  }

  /** From line 114 on: the branch for a high pin. */
  lemma {:induction false} FinishUp(c: KeyConfig, k: K)
    requires k.task == In(Up50Disarm5)
    ensures var k' := FinishTask(c, k);
      && k'.key == Key(1, Idle, k.key.key50ms) && k'.task == Away && k'.intr == NegEdge
      && k'.status == k.status && k'.high == k.high && k'.isr == k.isr
      && k'.log == k.log + [KeyEvent(Release, k.now)] + if c.shortPress then [KeyEvent(ShortCall, k.now)] else []
  {
    var k1 := KTaskStatement(c, k);
    var k2 := KTaskStatement(c, k1);
    var k3 := KTaskStatement(c, k2);
    assert FinishTask(c, k1) == FinishTask(c, k2);
    assert FinishTask(c, k2) == FinishTask(c, k3);
    if c.shortPress {
      assert FinishTask(c, k3) == FinishTask(c, KTaskStatement(c, k3));
    }
  }

  /** `key_50ms_cb`, not interrupted, is the atomic step. */
  lemma {:induction false} CheckIsAtomic(c: KeyConfig, k: K)
    requires Quiet(k) && k.key.key50ms.Armed?
    ensures var k' := FinishTask(c, k.(key := k.key.(key50ms := Idle), task := In(Up50Disarm)));
      Quiet(k') && Atomic(k') == Check50(Atomic(k))
  {
    var k0 := k.(key := k.key.(key50ms := Idle), task := In(Up50Disarm));
    var k1 := KTaskStatement(c, k0);
    var k2 := KTaskStatement(c, k1);
    assert FinishTask(c, k0) == FinishTask(c, k1);
    assert FinishTask(c, k1) == FinishTask(c, k2);
    if k.high {
      FinishUp(c, k2);
    } else {
      assert FinishTask(c, k2) == FinishTask(c, KTaskStatement(c, k2));
    }
  }

  /** From line 91 on. */
  lemma {:induction false} FinishLong(c: KeyConfig, k: K)
    requires k.task == In(Long5Disarm)
    ensures FinishTask(c, k) ==
      k.(key := k.key.(key5s := Idle), task := Away,
         log := k.log + if !k.high && c.longPress then [KeyEvent(LongCall, k.now)] else [])
  {
    var k1 := KTaskStatement(c, k);
    var k2 := KTaskStatement(c, k1);
    assert FinishTask(c, k) == FinishTask(c, k1);
    assert FinishTask(c, k1) == FinishTask(c, k2);
    if k2.task.In? {
      assert FinishTask(c, k2) == FinishTask(c, KTaskStatement(c, k2));
    }
    assert k.log + [] == k.log;
  }

  /** `key_5s_cb`, not interrupted, is the atomic step. */
  lemma {:induction false} LongIsAtomic(c: KeyConfig, k: K)
    requires Quiet(k) && k.key.key5s.Armed?
    ensures var k' := FinishTask(c, k.(key := k.key.(key5s := Idle), task := In(Long5Disarm)));
      Quiet(k') && Atomic(k') == Long5(Atomic(k))
  {
    var k0 := k.(key := k.key.(key5s := Idle), task := In(Long5Disarm));
    FinishLong(c, k0);
  }
}
