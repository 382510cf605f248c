/** The supervisory node (MCU_1/APP/MCU_1.c).

    Each main-loop cycle re-reads the operating mode from EEPROM slot 0,
    samples the temperature, sends it to the peer node and applies the mode's
    transition table; a timer callback counts ticks spent in Emergency and an
    edge interrupt (the shutdown button) may send the Shutdown code.

    The node is modelled twice: as values (`Sys` and the `...Next` functions,
    which the lemmas below reason about) and as the class `Supervisor`, whose
    fields are the source's globals and whose methods update them step by
    step, each proved to agree with its function. */
module SupervisoryNode {
  import opened AvrTypes

  // Values of the global `state` and of the persisted mode byte.
  const NORMAL_STATE: uint8 := 0
  const EMERGENCY_STATE: uint8 := 1
  const ABNORMAL_STATE: uint8 := 2

  // Codes sent to the peer node in place of a temperature.
  const SHUTDOWN_CODE: uint8 := 0xFF
  const ABNORMAL_CODE: uint8 := 0xFE

  /** Counter value from which an Emergency cycle escalates to Abnormal. */
  const ESCALATION_TICKS: uint8 := 14

  /** `TIME_OUT_16MS`, the shortest watchdog period, used when Abnormal. */
  const TIME_OUT_16MS: uint8 := 0x00

  /** One externally visible effect, in the order the node performs them. */
  datatype Effect =
    | Send(byte: uint8)           // UART_sendByte(byte)
    | Motor(cmd: MotorCommand)    // DcMotor_Rotate(dir, speed)
    | Persist(value: uint8)       // INTERNAL_EEPROM_writeByte(0x00, value)
    | WatchdogOn(timeout: uint8)  // WDT_ON(timeout): the watchdog is armed

  /** The node's globals, EEPROM slot 0, and the effects performed so far. */
  datatype Sys = Sys(
    temperature: uint8,
    emergencyTime: uint8,
    state: uint8,
    buttonPressed: bool,
    slot: uint8,
    log: seq<Effect>)

  /** Something that happens to the node: a timer tick, a falling edge on
      INT0, the outside writer setting `buttonPressed`, or one main-loop
      cycle with the sensor returning `t`. */
  datatype Op = Tick | Edge | Press | Cycle(t: uint8)

  /** `mapToPercentage`: clamp `value` into [min1, max1], then scale with
      C's truncating division. The operands are 16-bit `int`s; the caller must
      not divide by zero or overflow. */
  function MapToPercentage(value: int, min1: int, max1: int): (r: int)
    requires IsInt16(value) && IsInt16(min1) && IsInt16(max1)
    requires min1 != max1
    requires IsInt16(max1 - min1) && IsInt16((max1 - min1) * 100)
    ensures min1 < max1 ==> 0 <= r <= 100
    ensures min1 < max1 && value <= min1 ==> r == 0
    ensures min1 < max1 && max1 <= value ==> r == 100
    ensures max1 < min1 ==> r == 100
  {
    var low := if value < min1 then min1 else value;
    var v := if low > max1 then max1 else low;
    ScaleBounded(v - min1, max1 - min1);
    CDiv((v - min1) * 100, max1 - min1)
  }

  /** Scaling the clamped offset `x` of a range of width `d` to percent with
      C division: within 0..100 on an increasing range, 0 at its bottom and
      100 at its top; a decreasing range clamps everything to its end. */
  lemma ScaleBounded(x: int, d: int)
    requires d != 0
    requires 0 < d ==> 0 <= x <= d
    requires d < 0 ==> x == d
    ensures 0 < d ==> 0 <= CDiv(x * 100, d) <= 100
    ensures x == 0 ==> CDiv(x * 100, d) == 0
    ensures x == d ==> CDiv(x * 100, d) == 100
  {
    if 0 < d {
      MulMonotone(100, x, d);
      DivMonotone(x * 100, d * 100, d);
      PercentOfWhole(d);
    } else {
      PercentOfWhole(-d);
      assert x * 100 == -((-d) * 100);
    }
  }

  /** The whole of a positive range is 100 percent. */
  lemma PercentOfWhole(d: int)
    requires 0 < d
    ensures (d * 100) / d == 100
  {
    var n := d * 100;
    assert n == d * 100 + 0;
  }

  /** On the band the main loop uses (20..40), the motor speed rises by five
      percent per degree. */
  lemma PercentageOnControlBand(t: int)
    requires 20 <= t <= 40
    ensures MapToPercentage(t, 20, 40) == (t - 20) * 5
  {
  }

  /** A higher reading never gives a lower speed. */
  lemma PercentageMonotone(a: int, b: int, min1: int, max1: int)
    requires IsInt16(a) && IsInt16(b) && IsInt16(min1) && IsInt16(max1)
    requires min1 < max1 && IsInt16(max1 - min1) && IsInt16((max1 - min1) * 100)
    requires a <= b
    ensures MapToPercentage(a, min1, max1) <= MapToPercentage(b, min1, max1)
  {
    var ca := if a < min1 then min1 else if a > max1 then max1 else a;
    var cb := if b < min1 then min1 else if b > max1 then max1 else b;
    var d := max1 - min1;
    MulMonotone(100, ca - min1, cb - min1);
    DivMonotone((ca - min1) * 100, (cb - min1) * 100, d);
  }

  lemma MulMonotone(k: int, a: int, b: int)
    requires 0 <= k && a <= b
    ensures a * k <= b * k
  {
    assert b * k - a * k == (b - a) * k;
  }

  lemma DivMonotone(x: int, y: int, d: int)
    requires 0 <= x <= y && 0 < d
    ensures x / d <= y / d
  {
    var qx, qy := x / d, y / d;
    if qx > qy {
      MulMonotone(d, qy + 1, qx);
      assert false;
    }
  }

  /** The globals as C initialises them at every reset, with the EEPROM
      slot keeping whatever was persisted before it. */
  function PowerOn(persisted: uint8): (r: Sys)
    ensures r.slot == persisted && r.log == []
    ensures r.temperature == 0 && r.state == NORMAL_STATE && r.emergencyTime == 0 && !r.buttonPressed
  {
    Sys(0, 0, NORMAL_STATE, false, persisted, [])
  }

  /** Line 144: before the loop starts, slot 0 is overwritten with Normal. */
  function BootNext(s: Sys): (r: Sys)
    ensures r.slot == NORMAL_STATE
    ensures r.(slot := s.slot, log := s.log) == s
    ensures r.log == s.log + [Persist(NORMAL_STATE)]
  {
    s.(slot := NORMAL_STATE, log := s.log + [Persist(NORMAL_STATE)])
  }

  /** `emergencyTick`: counts (in `uint8`, wrapping) while in Emergency and
      zeroes the counter otherwise. */
  function TickNext(s: Sys): (r: Sys)
    ensures r.(emergencyTime := s.emergencyTime) == s
    ensures r.emergencyTime != 0 ==> s.state == EMERGENCY_STATE
    ensures s.state == EMERGENCY_STATE && s.emergencyTime < 0xFF ==> r.emergencyTime == s.emergencyTime + 1
  {
    if s.state == EMERGENCY_STATE then
      s.(emergencyTime := (s.emergencyTime + 1) % 0x100)
    else
      s.(emergencyTime := 0)
  }

  /** True when the cached temperature lies in the band in which a shutdown
      request is forwarded to the peer node. */
  predicate InShutdownBand(t: uint8) {
    40 <= t <= 50
  }

  /** The INT0 interrupt: forwards the Shutdown code when the temperature of
      the last cycle lies in [40, 50]. */
  function EdgeNext(s: Sys): (r: Sys)
    ensures r.(log := s.log) == s
    ensures |s.log| <= |r.log| <= |s.log| + 1 && r.log[..|s.log|] == s.log
    ensures r.log != s.log <==> 40 <= s.temperature <= 50
  {
    if InShutdownBand(s.temperature) then
      s.(log := s.log + [Send(SHUTDOWN_CODE)])
    else
      s
  }

  /** The `switch (state)` of one cycle; `s.state` has just been read back
      from slot 0 and `s.temperature` sampled. */
  function SwitchNext(s: Sys): (r: Sys)
    ensures r.temperature == s.temperature && r.buttonPressed == s.buttonPressed
    ensures |s.log| <= |r.log| && r.log[..|s.log|] == s.log
    ensures r.state != s.state ==> r.slot == r.state && Persist(r.state) in r.log[|s.log|..]
    ensures r.emergencyTime == (if s.state == ABNORMAL_STATE then 0 else s.emergencyTime)
  {
    var t := s.temperature;
    if s.state == NORMAL_STATE then
      if t <= 20 then
        s.(slot := NORMAL_STATE,
           log := s.log + [Persist(NORMAL_STATE), Motor(Rotate(Stop, 0))])
      else if 20 <= t < 40 then
        s.(slot := NORMAL_STATE,
           log := s.log + [Persist(NORMAL_STATE), Motor(Rotate(Clockwise, MapToPercentage(t, 20, 40)))])
      else if 40 <= t <= 50 then
        s.(slot := NORMAL_STATE,
           log := s.log + [Persist(NORMAL_STATE), Motor(Rotate(Clockwise, 100))])
      else
        // t > 50: escalate without any motor command
        s.(state := EMERGENCY_STATE, slot := EMERGENCY_STATE,
           log := s.log + [Persist(EMERGENCY_STATE)])
    else if s.state == EMERGENCY_STATE then
      if s.emergencyTime >= ESCALATION_TICKS then
        // the `break` skips the motor command
        s.(state := ABNORMAL_STATE, slot := ABNORMAL_STATE,
           log := s.log + [Persist(ABNORMAL_STATE), Send(ABNORMAL_CODE)])
      else if t < 50 then
        s.(state := NORMAL_STATE, slot := NORMAL_STATE,
           log := s.log + [Persist(NORMAL_STATE), Motor(Rotate(Clockwise, 100))])
      else
        s.(log := s.log + [Motor(Rotate(Clockwise, 100))])
    else if s.state == ABNORMAL_STATE then
      s.(emergencyTime := 0,
         log := s.log + [Motor(Rotate(Clockwise, 100)), WatchdogOn(TIME_OUT_16MS)])
    else
      s
  }

  /** What the button block at the end of a cycle sends. */
  function ShutdownAlarm(pressed: bool, t: uint8): (r: seq<Effect>)
    ensures r == [] || r == [Send(SHUTDOWN_CODE)]
    ensures r != [] <==> pressed && 40 <= t <= 50
  {
    if pressed && InShutdownBand(t) then [Send(SHUTDOWN_CODE)] else []
  }

  /** One iteration of the main loop with the sensor returning `t`. The
      temperature byte is always the first effect of the cycle, ahead of any
      store write, and the button flag is always consumed. */
  function CycleNext(s: Sys, t: uint8): (r: Sys)
    ensures r.temperature == t && !r.buttonPressed
    ensures |s.log| < |r.log| && r.log[..|s.log|] == s.log && r.log[|s.log|] == Send(t)
  {
    var read := s.(state := s.slot, temperature := t, log := s.log + [Send(t)]);
    var switched := SwitchNext(read);
    switched.(buttonPressed := false,
              log := switched.log + ShutdownAlarm(switched.buttonPressed, t))
  }

  function Apply(s: Sys, op: Op): Sys {
    match op
    case Tick => TickNext(s)
    case Edge => EdgeNext(s)
    case Press => s.(buttonPressed := true)
    case Cycle(t) => CycleNext(s, t)
  }

  /** The node after `ops`, taken in order; effects are only ever appended. */
  function Run(s: Sys, ops: seq<Op>): (r: Sys)
    ensures |s.log| <= |r.log| && r.log[..|s.log|] == s.log
    decreases |ops|
  {
    if ops == [] then s else Run(Apply(s, ops[0]), ops[1..])
  }

  /** The effects performed between `before` and `after`. */
  function NewEffects(before: Sys, after: Sys): seq<Effect>
    requires |before.log| <= |after.log|
  {
    after.log[|before.log|..]
  }

  function Ticks(k: nat): seq<Op> {
    seq(k, _ => Tick)
  }

  function TickCount(ops: seq<Op>): nat {
    if ops == [] then 0 else (if ops[0] == Tick then 1 else 0) + TickCount(ops[1..])
  }

  /** Every cycle in `ops` samples at least 50 degrees. */
  predicate HeldHot(ops: seq<Op>) {
    forall i :: 0 <= i < |ops| && ops[i].Cycle? ==> ops[i].t >= 50
  }

  // ---------------------------------------------------------------------
  // Properties of single steps

  lemma {:induction false} RunAppend(s: Sys, a: seq<Op>, b: seq<Op>)
    ensures Run(s, a + b) == Run(Run(s, a), b)
    decreases |a|
  {
    if a == [] {
      assert a + b == b;
    } else {
      assert (a + b)[0] == a[0];
      assert (a + b)[1..] == a[1..] + b;
      RunAppend(Apply(s, a[0]), a[1..], b);
    }
  }

  /** After a reset, slot 0 holds Normal whatever was persisted, so the first
      cycle never re-enters Abnormal nor arms the watchdog. */
  lemma BootForgetsPersistedMode(persisted: uint8, t: uint8)
    ensures BootNext(PowerOn(persisted)).slot == NORMAL_STATE
    ensures var r := CycleNext(BootNext(PowerOn(persisted)), t);
      r.state != ABNORMAL_STATE && WatchdogOn(TIME_OUT_16MS) !in r.log
  {
    NormalCycle(BootNext(PowerOn(persisted)), t);
  }

  /** INT0 is live before the first cycle samples the sensor; an edge then
      sees the zero-initialised temperature and sends nothing. */
  lemma EarlyEdgeSilent(persisted: uint8)
    ensures EdgeNext(BootNext(PowerOn(persisted))).log == [Persist(NORMAL_STATE)]
  {
  }

  /** A tick touches only the counter: in Emergency it advances by one
      modulo 256, elsewhere it is cleared. */
  lemma TickEffect(s: Sys)
    ensures var r := TickNext(s);
      r.(emergencyTime := s.emergencyTime) == s &&
      (s.state == EMERGENCY_STATE ==> r.emergencyTime == if s.emergencyTime == 255 then 0 else s.emergencyTime + 1) &&
      (s.state != EMERGENCY_STATE ==> r.emergencyTime == 0)
  {
  }

  /** The edge interrupt sends the Shutdown code exactly when the cached
      temperature is in [40, 50], and changes nothing else. */
  lemma EdgeAlarmIff(s: Sys)
    ensures var r := EdgeNext(s);
      r.(log := s.log) == s &&
      |s.log| <= |r.log| <= |s.log| + 1 && r.log[..|s.log|] == s.log &&
      (Send(SHUTDOWN_CODE) in NewEffects(s, r) <==> 40 <= s.temperature <= 50)
  {
  }

  /** A cycle with Normal persisted (lines 156-177). */
  lemma NormalCycle(s: Sys, t: uint8)
    requires s.slot == NORMAL_STATE
    ensures var r := CycleNext(s, t);
      r.state == r.slot == (if t > 50 then EMERGENCY_STATE else NORMAL_STATE) &&
      r.emergencyTime == s.emergencyTime &&
      r.log == s.log + [Send(t)]
        + (if t <= 20 then [Persist(NORMAL_STATE), Motor(Rotate(Stop, 0))]
           else if t < 40 then [Persist(NORMAL_STATE), Motor(Rotate(Clockwise, (t - 20) * 5))]
           else if t <= 50 then [Persist(NORMAL_STATE), Motor(Rotate(Clockwise, 100))]
           else [Persist(EMERGENCY_STATE)])
        + ShutdownAlarm(s.buttonPressed, t)
  {
    if 20 < t < 40 {
      PercentageOnControlBand(t);
    }
  }

  /** A cycle with Emergency persisted (lines 179-190). */
  lemma EmergencyCycle(s: Sys, t: uint8)
    requires s.slot == EMERGENCY_STATE
    ensures var r := CycleNext(s, t);
      r.emergencyTime == s.emergencyTime &&
      if s.emergencyTime >= 14 then
        r.state == r.slot == ABNORMAL_STATE &&
        r.log == s.log + [Send(t), Persist(ABNORMAL_STATE), Send(ABNORMAL_CODE)] + ShutdownAlarm(s.buttonPressed, t)
      else if t < 50 then
        r.state == r.slot == NORMAL_STATE &&
        r.log == s.log + [Send(t), Persist(NORMAL_STATE), Motor(Rotate(Clockwise, 100))] + ShutdownAlarm(s.buttonPressed, t)
      else
        r.state == r.slot == EMERGENCY_STATE &&
        r.log == s.log + [Send(t), Motor(Rotate(Clockwise, 100))] + ShutdownAlarm(s.buttonPressed, t)
  {
  }

  /** A cycle with Abnormal persisted (lines 192-196): the store is left
      alone, the counter cleared, the motor run at full speed and the
      watchdog armed with its shortest period. */
  lemma AbnormalCycle(s: Sys, t: uint8)
    requires s.slot == ABNORMAL_STATE
    ensures var r := CycleNext(s, t);
      r.state == r.slot == ABNORMAL_STATE && r.emergencyTime == 0 &&
      r.log == s.log + [Send(t), Motor(Rotate(Clockwise, 100)), WatchdogOn(TIME_OUT_16MS)]
        + ShutdownAlarm(s.buttonPressed, t)
  {
  }

  /** A persisted byte outside 0..2 falls to `default`: the cycle only sends
      the temperature (and possibly the Shutdown code). */
  lemma GarbageModeStalls(s: Sys, t: uint8)
    requires s.slot > ABNORMAL_STATE
    ensures var r := CycleNext(s, t);
      r.state == r.slot == s.slot && r.emergencyTime == s.emergencyTime &&
      r.log == s.log + [Send(t)] + ShutdownAlarm(s.buttonPressed, t)
  {
  }

  /** The `switch` of a cycle only appends, and never the Shutdown code. */
  lemma SwitchNeverSendsShutdown(s: Sys)
    ensures var r := SwitchNext(s);
      |s.log| <= |r.log| && r.log[..|s.log|] == s.log &&
      Send(SHUTDOWN_CODE) !in r.log[|s.log|..]
  {
    var r := SwitchNext(s);
    var added: seq<Effect> :|
      r.log == s.log + added &&
      forall e :: e in added ==> e != Send(SHUTDOWN_CODE);
    assert r.log[|s.log|..] == added;
  }

  /** The button flag plays no part in the `switch`. */
  lemma SwitchIgnoresFlag(s: Sys, pressed: bool)
    ensures SwitchNext(s.(buttonPressed := pressed)) == SwitchNext(s).(buttonPressed := pressed)
  {
  }

  /** After the temperature byte, a cycle sends the Shutdown code exactly when
      the button flag was set and the new reading is in [40, 50]; the flag
      never influences the mode, the counter or the store. */
  lemma ButtonAlarmIff(s: Sys, t: uint8)
    ensures var r := CycleNext(s, t);
      Send(SHUTDOWN_CODE) in r.log[|s.log| + 1..] <==> s.buttonPressed && 40 <= t <= 50
    ensures var r0 := CycleNext(s.(buttonPressed := false), t);
      var r1 := CycleNext(s.(buttonPressed := true), t);
      r0.state == r1.state && r0.slot == r1.slot && r0.emergencyTime == r1.emergencyTime
  {
    var read := s.(state := s.slot, temperature := t, log := s.log + [Send(t)]);
    var sw := SwitchNext(read);
    SwitchNeverSendsShutdown(read);
    var alarm := ShutdownAlarm(s.buttonPressed, t);
    var mid := sw.log[|read.log|..];
    assert sw.log == read.log + mid;
    assert sw.buttonPressed == s.buttonPressed;
    assert CycleNext(s, t).log[|s.log| + 1..] == mid + alarm;
    SwitchIgnoresFlag(read, false);
    SwitchIgnoresFlag(read, true);
  }

  /** The `switch` sends the Abnormal code exactly when it escalates. */
  lemma SwitchAbnormalCode(s: Sys)
    ensures var r := SwitchNext(s);
      |s.log| <= |r.log| && r.log[..|s.log|] == s.log &&
      (Send(ABNORMAL_CODE) in r.log[|s.log|..] <==> s.state == EMERGENCY_STATE && s.emergencyTime >= 14)
  {
    var r := SwitchNext(s);
    if s.state == EMERGENCY_STATE && s.emergencyTime >= 14 {
      assert r.log[|s.log|..] == [Persist(ABNORMAL_STATE), Send(ABNORMAL_CODE)];
    } else {
      var added: seq<Effect> :|
        r.log == s.log + added &&
        forall e :: e in added ==> e != Send(ABNORMAL_CODE);
      assert r.log[|s.log|..] == added;
    }
  }

  /** After the temperature byte, a cycle sends the Abnormal code exactly when
      it moves the node from Emergency to Abnormal, and that is the only way
      a cycle enters Abnormal. */
  lemma AbnormalCodeIff(s: Sys, t: uint8)
    ensures var r := CycleNext(s, t);
      (Send(ABNORMAL_CODE) in r.log[|s.log| + 1..] <==>
         s.slot == EMERGENCY_STATE && s.emergencyTime >= 14) &&
      (s.slot != ABNORMAL_STATE && r.slot == ABNORMAL_STATE <==>
         s.slot == EMERGENCY_STATE && s.emergencyTime >= 14)
  {
    var read := s.(state := s.slot, temperature := t, log := s.log + [Send(t)]);
    var sw := SwitchNext(read);
    SwitchAbnormalCode(read);
    var alarm := ShutdownAlarm(s.buttonPressed, t);
    var mid := sw.log[|read.log|..];
    assert sw.log == read.log + mid;
    assert CycleNext(s, t).log[|s.log| + 1..] == mid + alarm;
    assert Send(ABNORMAL_CODE) !in alarm;
  }

  /** The next mode, counter and effects of a cycle depend only on the
      persisted mode, the counter, the button flag and the new reading. */
  lemma CycleDeterminedByInputs(s1: Sys, s2: Sys, t: uint8)
    requires s1.slot == s2.slot && s1.emergencyTime == s2.emergencyTime
    requires s1.buttonPressed == s2.buttonPressed
    ensures var r1 := CycleNext(s1, t);
      var r2 := CycleNext(s2, t);
      r1.state == r2.state && r1.slot == r2.slot && r1.emergencyTime == r2.emergencyTime &&
      NewEffects(s1, r1) == NewEffects(s2, r2)
  {
    var r1 := CycleNext(s1, t);
    var r2 := CycleNext(s2, t);
    if s1.slot == NORMAL_STATE {
      NormalCycle(s1, t);
      NormalCycle(s2, t);
    } else if s1.slot == EMERGENCY_STATE {
      EmergencyCycle(s1, t);
      EmergencyCycle(s2, t);
    } else if s1.slot == ABNORMAL_STATE {
      AbnormalCycle(s1, t);
      AbnormalCycle(s2, t);
    } else {
      GarbageModeStalls(s1, t);
      GarbageModeStalls(s2, t);
    }
    assert r1.log[|s1.log|..] == r2.log[|s2.log|..];
  }

  // ---------------------------------------------------------------------
  // Properties of runs

  /** `k` ticks in Emergency advance the counter by `k` modulo 256. */
  lemma {:induction false} TicksInEmergency(s: Sys, k: nat)
    requires s.state == EMERGENCY_STATE
    ensures Run(s, Ticks(k)) == s.(emergencyTime := (s.emergencyTime + k) % 0x100)
    decreases k
  {
    if k > 0 {
      assert Ticks(k)[0] == Tick;
      assert Ticks(k)[1..] == Ticks(k - 1);
      TicksInEmergency(TickNext(s), k - 1);
    }
  }

  /** While every cycle reads at least 50 degrees and fewer than 14 ticks
      have been counted, the node stays in Emergency, the counter equals the
      ticks taken, and the store is never written. */
  lemma {:induction false} EmergencyHeld(s: Sys, ops: seq<Op>)
    requires s.state == EMERGENCY_STATE && s.slot == EMERGENCY_STATE
    requires HeldHot(ops) && s.emergencyTime + TickCount(ops) < 14
    ensures var r := Run(s, ops);
      r.state == EMERGENCY_STATE && r.slot == EMERGENCY_STATE &&
      r.emergencyTime == s.emergencyTime + TickCount(ops) &&
      PersistFree(NewEffects(s, r))
    decreases |ops|
  {
    if ops != [] {
      assert HeldHot(ops[1..]) by {
        forall i | 0 <= i < |ops[1..]| && ops[1..][i].Cycle?
          ensures ops[1..][i].t >= 50
        {
          assert ops[1..][i] == ops[i + 1];
        }
      }
      HotStepInEmergency(s, ops[0]);
      var s1 := Apply(s, ops[0]);
      EmergencyHeld(s1, ops[1..]);
      EffectsCompose(s, s1, Run(s1, ops[1..]));
    }
  }

  /** No effect among `effects` writes the store. */
  predicate PersistFree(effects: seq<Effect>) {
    forall e :: e in effects ==> !e.Persist?
  }

  lemma EffectsCompose(s: Sys, m: Sys, r: Sys)
    requires |s.log| <= |m.log| && m.log[..|s.log|] == s.log
    requires |m.log| <= |r.log| && r.log[..|m.log|] == m.log
    ensures |s.log| <= |r.log| && r.log[..|s.log|] == s.log
    ensures NewEffects(s, r) == NewEffects(s, m) + NewEffects(m, r)
    ensures PersistFree(NewEffects(s, m)) && PersistFree(NewEffects(m, r)) ==> PersistFree(NewEffects(s, r))
  {
    assert r.log == m.log + NewEffects(m, r);
    assert m.log == s.log + NewEffects(s, m);
  }

  /** One tick, edge, or cycle reading at least 50 degrees, taken in
      Emergency with fewer than 14 ticks counted. */
  lemma HotStepInEmergency(s: Sys, op: Op)
    requires s.state == EMERGENCY_STATE && s.slot == EMERGENCY_STATE && s.emergencyTime < 14
    requires op.Cycle? ==> op.t >= 50
    ensures var r := Apply(s, op);
      r.state == EMERGENCY_STATE && r.slot == EMERGENCY_STATE &&
      r.emergencyTime == s.emergencyTime + (if op == Tick then 1 else 0) &&
      |s.log| <= |r.log| && r.log[..|s.log|] == s.log &&
      PersistFree(NewEffects(s, r))
  {
    match op {
      case Tick =>
      case Edge =>
      case Press =>
      case Cycle(t) =>
        EmergencyCycle(s, t);
        assert NewEffects(s, CycleNext(s, t)) == [Send(t), Motor(Rotate(Clockwise, 100))] + ShutdownAlarm(s.buttonPressed, t);
    }
  }

  /** Held above 50 degrees from a freshly booted node: the first cycle
      escalates Normal to Emergency, the node stays in Emergency through 13
      ticks, and the first cycle after the 14th tick enters Abnormal, writing
      the store and sending the Abnormal code, with no motor command. */
  lemma Escalation(s: Sys, t: uint8, hold: seq<Op>)
    requires s.slot == NORMAL_STATE && s.emergencyTime == 0
    requires t > 50 && HeldHot(hold) && TickCount(hold) == 13
    ensures var entered := CycleNext(s, t);
      entered.state == entered.slot == EMERGENCY_STATE
    ensures var held := Run(s, [Cycle(t)] + hold);
      held.state == held.slot == EMERGENCY_STATE && held.emergencyTime == 13
    ensures var mid := Run(s, [Cycle(t)] + hold + [Tick]);
      var r := CycleNext(mid, t);
      mid.state == mid.slot == EMERGENCY_STATE && mid.emergencyTime == 14 &&
      r.state == r.slot == ABNORMAL_STATE &&
      r.log == mid.log + [Send(t), Persist(ABNORMAL_STATE), Send(ABNORMAL_CODE)]
  {
    var entered := CycleNext(s, t);
    NormalCycle(s, t);
    assert Run(s, [Cycle(t)]) == entered by {
      assert [Cycle(t)][1..] == [];
    }
    RunAppend(s, [Cycle(t)], hold);
    EmergencyHeld(entered, hold);
    var held := Run(entered, hold);
    RunAppend(s, [Cycle(t)] + hold, [Tick]);
    assert Run(held, [Tick]) == TickNext(held) by {
      assert [Tick][1..] == [];
    }
    var mid := TickNext(held);
    EmergencyCycle(mid, t);
  }

  /** Leaving Emergency does not clear the counter: an Emergency cycle that
      cools to Normal followed by a hot cycle with no tick in between comes
      back to Emergency with the old count. */
  lemma CounterKeptAcrossReturn(s: Sys, cool: uint8, hot: uint8)
    requires s.slot == EMERGENCY_STATE && s.emergencyTime < 14
    requires cool < 50 && hot > 50
    ensures CycleNext(s, cool).state == NORMAL_STATE
    ensures CycleNext(s, cool).emergencyTime == s.emergencyTime
    ensures var r := CycleNext(CycleNext(s, cool), hot);
      r.state == r.slot == EMERGENCY_STATE && r.emergencyTime == s.emergencyTime
  {
    EmergencyCycle(s, cool);
    NormalCycle(CycleNext(s, cool), hot);
  }

  /** No cycle of `ops` reads the value of the Abnormal code as a temperature. */
  predicate NoAbnormalCodeReading(ops: seq<Op>) {
    forall i :: 0 <= i < |ops| ==> ops[i] != Cycle(ABNORMAL_CODE)
  }

  /** Abnormal is absorbing within a run: whatever happens, slot 0 keeps
      Abnormal, nothing is ever written to it again, and the Abnormal code is
      not sent again (unless a reading equal to it is forwarded as a
      temperature). */
  lemma {:induction false} AbnormalAbsorbing(s: Sys, ops: seq<Op>)
    requires s.slot == ABNORMAL_STATE
    ensures var r := Run(s, ops);
      r.slot == ABNORMAL_STATE &&
      PersistFree(NewEffects(s, r)) &&
      (NoAbnormalCodeReading(ops) ==> Send(ABNORMAL_CODE) !in NewEffects(s, r))
    decreases |ops|
  {
    if ops != [] {
      var s1 := Apply(s, ops[0]);
      var r := Run(s1, ops[1..]);
      AbnormalStep(s, ops[0]);
      AbnormalAbsorbing(s1, ops[1..]);
      EffectsCompose(s, s1, r);
      assert NoAbnormalCodeReading(ops) ==> NoAbnormalCodeReading(ops[1..]) by {
        if NoAbnormalCodeReading(ops) {
          forall i | 0 <= i < |ops[1..]| ensures ops[1..][i] != Cycle(ABNORMAL_CODE) {
            assert ops[1..][i] == ops[i + 1];
          }
        }
      }
    }
  }

  /** One tick, edge or cycle with Abnormal persisted. */
  lemma AbnormalStep(s: Sys, op: Op)
    requires s.slot == ABNORMAL_STATE
    ensures var r := Apply(s, op);
      r.slot == ABNORMAL_STATE &&
      |s.log| <= |r.log| && r.log[..|s.log|] == s.log &&
      PersistFree(NewEffects(s, r)) &&
      (op != Cycle(ABNORMAL_CODE) ==> Send(ABNORMAL_CODE) !in NewEffects(s, r))
  {
    match op {
      case Tick =>
      case Edge =>
      case Press =>
      case Cycle(t) =>
        AbnormalCycle(s, t);
        assert NewEffects(s, CycleNext(s, t)) == [Send(t), Motor(Rotate(Clockwise, 100)), WatchdogOn(TIME_OUT_16MS)]
          + ShutdownAlarm(s.buttonPressed, t);
    }
  }

  // ---------------------------------------------------------------------
  // The node as the source writes it: globals updated in place

  class Supervisor {
    var temperature: uint8
    var emergencyTime: uint8
    var state: uint8
    var buttonPressed: bool  // set only by a writer outside this file
    var slot: uint8          // EEPROM address 0x00
    var log: seq<Effect>

    ghost function Snap(): Sys
      reads this
    {
      Sys(temperature, emergencyTime, state, buttonPressed, slot, log)
    }

    /** Power-on: the globals take their initial values; the EEPROM keeps
        `persisted`. */
    constructor (persisted: uint8)
      ensures Snap() == PowerOn(persisted)
    {
      temperature, emergencyTime, state, buttonPressed := 0, 0, NORMAL_STATE, false;
      slot, log := persisted, [];
    }

    /** `INTERNAL_EEPROM_readByte(0x00)`: returns the last byte written. */
    method ReadSlot() returns (v: uint8)
      ensures v == slot
    {
      v := slot;
    }

    /** `INTERNAL_EEPROM_writeByte(0x00, v)`. */
    method WriteSlot(v: uint8)
      modifies this`slot, this`log
      ensures slot == v && log == old(log) + [Persist(v)]
    {
      slot := v;
      log := log + [Persist(v)];
    }

    method SendByte(b: uint8)
      modifies this`log
      ensures log == old(log) + [Send(b)]
    {
      log := log + [Send(b)];
    }

    method MotorRotate(dir: Direction, speed: uint8)
      modifies this`log
      ensures log == old(log) + [Motor(Rotate(dir, speed))]
    {
      log := log + [Motor(Rotate(dir, speed))];
    }

    method WatchdogOnWith(timeout: uint8)
      modifies this`log
      ensures log == old(log) + [WatchdogOn(timeout)]
    {
      log := log + [WatchdogOn(timeout)];
    }

    /** Line 144. */
    method Boot()
      modifies this
      ensures Snap() == BootNext(old(Snap()))
    {
      WriteSlot(NORMAL_STATE);
    }

    /** `emergencyTick`, the Timer1 compare callback. */
    method Tick()
      modifies this`emergencyTime
      ensures Snap() == TickNext(old(Snap()))
    {
      if state == EMERGENCY_STATE {
        emergencyTime := (emergencyTime + 1) % 0x100;
      } else {
        emergencyTime := 0;
      }
    }

    /** `ISR(INT0_vect)`. */
    method Edge()
      modifies this`log
      ensures Snap() == EdgeNext(old(Snap()))
    {
      if temperature >= 40 && temperature <= 50 {
        SendByte(SHUTDOWN_CODE);
      }
    }

    /** One iteration of the `while(1)` body, the sensor returning `t`. */
    method Cycle(t: uint8)
      modifies this
      ensures Snap() == CycleNext(old(Snap()), t)
    {
      state := ReadSlot();
      temperature := t;
      SendByte(temperature);

      Switch();

      if buttonPressed {
        if temperature >= 40 && temperature <= 50 {
          SendByte(SHUTDOWN_CODE);
        }
        buttonPressed := false;
      }
    }

    /** The `switch (state)` of the main loop. */
    method Switch()
      modifies this
      ensures Snap() == SwitchNext(old(Snap()))
    {
      if state == NORMAL_STATE {
        if temperature <= 20 {
          WriteSlot(NORMAL_STATE);
          MotorRotate(Stop, 0);
          state := NORMAL_STATE;
        } else if temperature >= 20 && temperature < 40 {
          WriteSlot(NORMAL_STATE);
          MotorRotate(Clockwise, MapToPercentage(temperature, 20, 40));
          state := NORMAL_STATE;
        } else if temperature >= 40 && temperature <= 50 {
          WriteSlot(NORMAL_STATE);
          MotorRotate(Clockwise, 100);
          state := NORMAL_STATE;
        } else if temperature > 50 {
          state := EMERGENCY_STATE;
          WriteSlot(EMERGENCY_STATE);
        }
      } else if state == EMERGENCY_STATE {
        if emergencyTime >= ESCALATION_TICKS {
          state := ABNORMAL_STATE;
          WriteSlot(ABNORMAL_STATE);
          SendByte(ABNORMAL_CODE);
        } else {
          if temperature < 50 {
            state := NORMAL_STATE;
            WriteSlot(NORMAL_STATE);
          }
          MotorRotate(Clockwise, 100);
        }
      } else if state == ABNORMAL_STATE {
        emergencyTime := 0;
        MotorRotate(Clockwise, 100);
        WatchdogOnWith(TIME_OUT_16MS);
      }
    }
  }
}
