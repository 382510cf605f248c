/** The UART link between the two nodes: the supervisory node sends each
    temperature as a raw byte and uses 0xFE and 0xFF as codes on the same
    channel, with no framing; the actuation node decodes every byte it
    receives. The lemmas feed the peer exactly the bytes the sender put on
    the wire, in order: the link is taken to lose, add and reorder none. */
module Link {
  import opened AvrTypes
  import S = SupervisoryNode
  import A = ActuationNode

  /** The bytes among `effects`, in the order they went on the wire. */
  function SentBytes(effects: seq<S.Effect>): seq<uint8> {
    if effects == [] then []
    else (if effects[0].Send? then [effects[0].byte] else []) + SentBytes(effects[1..])
  }

  /** The wire carries the bytes of consecutive stretches of effects one
      after the other. */
  lemma {:induction false} SentBytesAppend(a: seq<S.Effect>, b: seq<S.Effect>)
    ensures SentBytes(a + b) == SentBytes(a) + SentBytes(b)
    decreases |a|
  {
    if a == [] {
      assert a + b == b;
    } else {
      var head := if a[0].Send? then [a[0].byte] else [];
      assert (a + b)[0] == a[0];
      assert (a + b)[1..] == a[1..] + b;
      assert SentBytes(a + b) == head + SentBytes(a[1..] + b);
      SentBytesAppend(a[1..], b);
      assert SentBytes(a) == head + SentBytes(a[1..]);
    }
  }

  /** The bytes of an escalating cycle: the temperature, the Abnormal code,
      then the Shutdown code if the button block fires. */
  lemma EscalationBytes(s: S.Sys, t: uint8)
    requires s.slot == S.EMERGENCY_STATE && s.emergencyTime >= S.ESCALATION_TICKS
    ensures var r := S.CycleNext(s, t);
      S.CycleNext(s, t).state == S.ABNORMAL_STATE &&
      SentBytes(S.NewEffects(s, r)) ==
        [t, S.ABNORMAL_CODE] + (if s.buttonPressed && 40 <= t <= 50 then [S.SHUTDOWN_CODE] else [])
  {
    var r := S.CycleNext(s, t);
    S.EmergencyCycle(s, t);
    var alarm := S.ShutdownAlarm(s.buttonPressed, t);
    assert S.NewEffects(s, r) == [S.Send(t), S.Persist(S.ABNORMAL_STATE), S.Send(S.ABNORMAL_CODE)] + alarm;
    EscalationWire(t, alarm);
  }

  lemma EscalationWire(t: uint8, alarm: seq<S.Effect>)
    requires alarm == [] || alarm == [S.Send(S.SHUTDOWN_CODE)]
    ensures SentBytes([S.Send(t), S.Persist(S.ABNORMAL_STATE), S.Send(S.ABNORMAL_CODE)] + alarm)
      == [t, S.ABNORMAL_CODE] + (if alarm == [] then [] else [S.SHUTDOWN_CODE])
  {
    var fx := [S.Send(t), S.Persist(S.ABNORMAL_STATE), S.Send(S.ABNORMAL_CODE)];
    SentBytesAppend(fx, alarm);
    assert fx[1..] == [S.Persist(S.ABNORMAL_STATE), S.Send(S.ABNORMAL_CODE)];
    assert fx[1..][1..] == [S.Send(S.ABNORMAL_CODE)];
    assert fx[1..][1..][1..] == [];
    assert SentBytes(fx[1..][1..]) == [S.ABNORMAL_CODE];
    assert SentBytes(fx[1..]) == [S.ABNORMAL_CODE];
    if alarm != [] {
      assert alarm[1..] == [];
    }
  }

  /** When an Emergency cycle escalates and the button block stays silent,
      the wire carries the temperature and then the Abnormal code; the peer
      ends up back in Normal with only the red LED lit, the buzzer silent,
      the servo at rest and the motor running at the potentiometer speed. */
  lemma EscalationAlertsPeer(s: S.Sys, t: uint8, p: A.Panel, adc1: uint16, adc2: uint16)
    requires s.slot == S.EMERGENCY_STATE && s.emergencyTime >= S.ESCALATION_TICKS
    requires !(s.buttonPressed && 40 <= t <= 50)
    ensures var r := S.CycleNext(s, t);
      SentBytes(S.NewEffects(s, r)) == [t, S.ABNORMAL_CODE] &&
      var q := A.Run(p, [A.Input(t, adc1), A.Input(S.ABNORMAL_CODE, adc2)]);
      q.state == A.NORMAL_STATE && q.red && !q.yellow && !q.green && !q.buzzer &&
      q.servo == A.Some(A.ROTATE_TO_0_POSITION) &&
      q.motor == A.Some(Rotate(Clockwise, A.MotorSpeed(adc2)))
  {
    EscalationBytes(s, t);
    var inputs := [A.Input(t, adc1), A.Input(S.ABNORMAL_CODE, adc2)];
    var p1 := A.StepNext(p, t, adc1);
    var p2 := A.StepNext(p1, S.ABNORMAL_CODE, adc2);
    A.AbnormalReceived(p1, adc2);
    assert inputs[1..] == [A.Input(S.ABNORMAL_CODE, adc2)];
    assert inputs[1..][1..] == [];
    assert A.Run(p, inputs) == A.Run(p1, inputs[1..]) == A.Run(p2, []) == p2;
  }

  /** When an Emergency cycle escalates while the button flag is set and the
      reading lies in [40, 50], the button block follows the Abnormal code
      with the Shutdown code: the peer plays the Abnormal sequence and then
      ends in Shutdown with its motor stopped, the red LED alone lit and the
      servo at rest. */
  lemma EscalationThenShutdown(s: S.Sys, t: uint8, p: A.Panel, adc1: uint16, adc2: uint16, adc3: uint16)
    requires s.slot == S.EMERGENCY_STATE && s.emergencyTime >= S.ESCALATION_TICKS
    requires s.buttonPressed && 40 <= t <= 50
    ensures var r := S.CycleNext(s, t);
      SentBytes(S.NewEffects(s, r)) == [t, S.ABNORMAL_CODE, S.SHUTDOWN_CODE] &&
      var q := A.Run(p, [A.Input(t, adc1), A.Input(S.ABNORMAL_CODE, adc2), A.Input(S.SHUTDOWN_CODE, adc3)]);
      q.state == A.SHUTDOWN_STATE && q.motor == A.Some(Rotate(Stop, 0)) &&
      q.red && !q.yellow && !q.green && !q.buzzer &&
      q.servo == A.Some(A.ROTATE_TO_0_POSITION)
  {
    EscalationBytes(s, t);
    var inputs := [A.Input(t, adc1), A.Input(S.ABNORMAL_CODE, adc2), A.Input(S.SHUTDOWN_CODE, adc3)];
    var p1 := A.StepNext(p, t, adc1);
    var p2 := A.StepNext(p1, S.ABNORMAL_CODE, adc2);
    var p3 := A.StepNext(p2, S.SHUTDOWN_CODE, adc3);
    A.AbnormalReceived(p1, adc2);
    A.ShutdownReceived(p2, adc3);
    assert inputs[1..] == [A.Input(S.ABNORMAL_CODE, adc2), A.Input(S.SHUTDOWN_CODE, adc3)];
    assert inputs[1..][1..] == [A.Input(S.SHUTDOWN_CODE, adc3)];
    assert inputs[1..][1..][1..] == [];
    assert A.Run(p, inputs) == A.Run(p1, inputs[1..]) == A.Run(p2, inputs[1..][1..]) == A.Run(p3, []) == p3;
  }

  /** A reading of 254 degrees is sent as the byte of the Abnormal code: the
      supervisory node merely enters Emergency, yet the peer plays the whole
      Abnormal sequence. The protocol does not tell the two apart. */
  lemma ReadingAliasesAbnormalCode(s: S.Sys, p: A.Panel, adc: uint16)
    requires s.slot == S.NORMAL_STATE
    ensures var r := S.CycleNext(s, 0xFE);
      r.state == S.EMERGENCY_STATE &&
      SentBytes(S.NewEffects(s, r)) == [S.ABNORMAL_CODE] &&
      A.StepNext(p, 0xFE, adc).servo == A.Some(A.ROTATE_TO_0_POSITION) &&
      A.Motor(Rotate(Stop, 0)) in A.StepNext(p, 0xFE, adc).log[|p.log|..]
  {
    S.NormalCycle(s, 0xFE);
    A.AbnormalReceived(p, adc);
    var fx := S.NewEffects(s, S.CycleNext(s, 0xFE));
    assert fx == [S.Send(0xFE)] + [S.Persist(S.EMERGENCY_STATE)];
    SentBytesAppend([S.Send(0xFE)], [S.Persist(S.EMERGENCY_STATE)]);
  }

  /** A reading of 255 degrees is sent as the byte of the Shutdown code: the
      supervisory node enters Emergency, and the peer stops its motor and
      stays in Shutdown until an Abnormal code arrives. */
  lemma ReadingAliasesShutdownCode(s: S.Sys, p: A.Panel, adc: uint16)
    requires s.slot == S.NORMAL_STATE
    ensures var r := S.CycleNext(s, 0xFF);
      r.state == S.EMERGENCY_STATE &&
      SentBytes(S.NewEffects(s, r)) == [S.SHUTDOWN_CODE] &&
      A.StepNext(p, 0xFF, adc).state == A.SHUTDOWN_STATE &&
      A.StepNext(p, 0xFF, adc).motor == A.Some(Rotate(Stop, 0))
  {
    S.NormalCycle(s, 0xFF);
    A.ShutdownReceived(p, adc);
    var fx := S.NewEffects(s, S.CycleNext(s, 0xFF));
    assert fx == [S.Send(0xFF)] + [S.Persist(S.EMERGENCY_STATE)];
    SentBytesAppend([S.Send(0xFF)], [S.Persist(S.EMERGENCY_STATE)]);
  }
}
