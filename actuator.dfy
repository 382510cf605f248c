/** The actuation node (MCU_2/APP/MCU_2.c).

    Each main-loop iteration receives one byte from the supervisory node and
    decodes it: the Shutdown code stops the motor for good, the Abnormal code
    plays the alarm sequence and restores normal operation, and any other
    byte is a temperature that selects one of three LEDs and the buzzer.
    Then the motor is driven from the state and the potentiometer.

    As for the supervisory node, the iteration is modelled as a function on
    values (`Panel`, `StepNext`) for the lemmas, and as the class `Actuator`
    whose method `Step` performs the driver calls in the source's order. */
module ActuationNode {
  import opened AvrTypes

  // Values of the local `state`; only these two are ever assigned.
  const NORMAL_STATE: uint8 := 0
  const SHUTDOWN_STATE: uint8 := 3

  // Codes received in place of a temperature.
  const SHUTDOWN_CODE: uint8 := 0xFF
  const ABNORMAL_CODE: uint8 := 0xFE

  // Servo compare values `ROTATE_TO_0_POSTION` and `ROTATE_TO_90_POSTION`.
  const ROTATE_TO_0_POSITION: uint16 := 124
  const ROTATE_TO_90_POSITION: uint16 := 187

  datatype Option<T> = None | Some(value: T)

  datatype Color = Red | Yellow | Green

  /** One call into the LED, buzzer, servo or DC-motor drivers. */
  datatype Action =
    | LedOn(color: Color)         // LED_turnLedOn
    | LedOff(color: Color)        // LED_turnLedOff
    | AllLedsOff                  // LED_turnAllOff
    | BuzzerOn                    // Buzzer_on
    | BuzzerOff                   // Buzzer_off
    | ServoTo(position: uint16)   // ServoMotor_rotate
    | Motor(cmd: MotorCommand)    // DcMotor_Rotate

  /** The node's state, what its outputs show, and every driver call made.
      `servo` and `motor` are `None` until first commanded. */
  datatype Panel = Panel(
    state: uint8,
    red: bool,
    yellow: bool,
    green: bool,
    buzzer: bool,
    servo: Option<uint16>,
    motor: Option<MotorCommand>,
    log: seq<Action>)

  /** One byte received together with the ADC sample of that iteration. */
  datatype Input = Input(byte: uint8, adc: uint16)

  predicate ValidState(state: uint8) {
    state == NORMAL_STATE || state == SHUTDOWN_STATE
  }

  /** After initialisation: state Normal, the LED and buzzer pins low. */
  function Initial(): (r: Panel)
    ensures r.state == NORMAL_STATE && ValidState(r.state)
    ensures !r.red && !r.yellow && !r.green && !r.buzzer
    ensures r.servo == None && r.motor == None && r.log == []
  {
    Panel(NORMAL_STATE, false, false, false, false, None, None, [])
  }

  function SetLed(p: Panel, c: Color, on: bool): Panel {
    match c
    case Red => p.(red := on)
    case Yellow => p.(yellow := on)
    case Green => p.(green := on)
  }

  /** The effect of one driver call on the outputs: a driver call never
      touches the state, and is appended to the log. */
  function Perform(p: Panel, a: Action): (r: Panel)
    ensures r.state == p.state && r.log == p.log + [a]
  {
    var q := match a
      case LedOn(c) => SetLed(p, c, true)
      case LedOff(c) => SetLed(p, c, false)
      case AllLedsOff => p.(red := false, yellow := false, green := false)
      case BuzzerOn => p.(buzzer := true)
      case BuzzerOff => p.(buzzer := false)
      case ServoTo(pos) => p.(servo := Some(pos))
      case Motor(cmd) => p.(motor := Some(cmd));
    q.(log := p.log + [a])
  }

  /** `motorSpeed = (mvop * 100) / 1023` with `mvop` a `uint32` and the
      result stored in a `uint8`. A 16-bit sample times 100 fits in 32 bits,
      so only the final narrowing can lose bits. For a 10-bit sample the
      speed is the floor of the sample's share of 1023, in percent. */
  function MotorSpeed(adc: uint16): (r: uint8)
    ensures adc <= 1023 ==> r <= 100 && r * 1023 <= adc * 100 < (r + 1) * 1023
  {
    (adc * 100 / 1023) % 0x100
  }

  /** The `switch` on the received byte. */
  function DecodeNext(p: Panel, b: uint8): (r: Panel)
    ensures r.state == (if b == SHUTDOWN_CODE then SHUTDOWN_STATE
                        else if b == ABNORMAL_CODE then NORMAL_STATE
                        else p.state)
    ensures r.motor != p.motor ==> b == ABNORMAL_CODE && r.motor == Some(Rotate(Stop, 0))
    ensures b == SHUTDOWN_CODE ==> r.log == p.log
    ensures |p.log| <= |r.log| && r.log[..|p.log|] == p.log
  {
    if b == SHUTDOWN_CODE then
      p.(state := SHUTDOWN_STATE)
    else if b == ABNORMAL_CODE then
      AbnormalSequence(p).(state := NORMAL_STATE)
    else
      ShowTemperature(p, b)
  }

  /** The driver calls made on the Abnormal code (the 5 s delay between
      stopping the motor and silencing the buzzer is left out). */
  function AbnormalSequence(p: Panel): (r: Panel)
    ensures r.state == p.state
    ensures r.red && !r.yellow && !r.green && !r.buzzer
    ensures r.servo == Some(ROTATE_TO_0_POSITION) && r.motor == Some(Rotate(Stop, 0))
    ensures r.log == p.log + [ServoTo(ROTATE_TO_90_POSITION), AllLedsOff, LedOn(Red), BuzzerOn,
                              Motor(Rotate(Stop, 0)), BuzzerOff, ServoTo(ROTATE_TO_0_POSITION)]
  {
    var p1 := Perform(p, ServoTo(ROTATE_TO_90_POSITION));
    var p2 := Perform(p1, AllLedsOff);
    var p3 := Perform(p2, LedOn(Red));
    var p4 := Perform(p3, BuzzerOn);
    var p5 := Perform(p4, Motor(Rotate(Stop, 0)));
    var p6 := Perform(p5, BuzzerOff);
    Perform(p6, ServoTo(ROTATE_TO_0_POSITION))
  }

  /** The driver calls made for a temperature byte, by band. */
  function ShowTemperature(p: Panel, b: uint8): (r: Panel)
    ensures r.state == p.state && r.servo == p.servo && r.motor == p.motor
    ensures (r.green <==> b < 20) && (r.yellow <==> 20 <= b < 40) && (r.red <==> 40 <= b)
    ensures r.buzzer <==> b > 50
    ensures |r.log| == |p.log| + 4 && r.log[..|p.log|] == p.log
  {
    if b < 20 then
      Perform(Perform(Perform(Perform(p, LedOff(Red)), LedOff(Yellow)), LedOn(Green)), BuzzerOff)
    else if 20 <= b < 40 then
      Perform(Perform(Perform(Perform(p, LedOff(Red)), LedOff(Green)), LedOn(Yellow)), BuzzerOff)
    else if 40 <= b <= 50 then
      Perform(Perform(Perform(Perform(p, LedOff(Yellow)), LedOff(Green)), LedOn(Red)), BuzzerOff)
    else
      // b > 50
      Perform(Perform(Perform(Perform(p, LedOff(Yellow)), LedOff(Green)), LedOn(Red)), BuzzerOn)
  }

  /** The motor command issued from the state after decoding. */
  function MotorNext(p: Panel, speed: uint8): (r: Panel)
    ensures r.(motor := p.motor, log := p.log) == p
    ensures ValidState(p.state) ==>
      r.motor == Some(if p.state == SHUTDOWN_STATE then Rotate(Stop, 0)
                      else Rotate(Clockwise, speed))
    ensures !ValidState(p.state) ==> r == p
  {
    if p.state == SHUTDOWN_STATE then
      Perform(p, Motor(Rotate(Stop, 0)))
    else if p.state == NORMAL_STATE then
      Perform(p, Motor(Rotate(Clockwise, speed)))
    else
      p
  }

  /** One iteration of the main loop. Only the two codes change the state:
      0xFF to Shutdown, 0xFE back to Normal. From either valid state the
      motor ends the iteration stopped in Shutdown and running clockwise at
      the potentiometer speed in Normal. */
  function StepNext(p: Panel, b: uint8, adc: uint16): (r: Panel)
    ensures r.state == (if b == SHUTDOWN_CODE then SHUTDOWN_STATE
                        else if b == ABNORMAL_CODE then NORMAL_STATE
                        else p.state)
    ensures ValidState(p.state) ==>
      ValidState(r.state) &&
      r.motor == Some(if r.state == SHUTDOWN_STATE then Rotate(Stop, 0)
                      else Rotate(Clockwise, MotorSpeed(adc)))
    ensures |p.log| <= |r.log| && r.log[..|p.log|] == p.log
  {
    var d := DecodeNext(p, b);
    assert d.state == (if b == SHUTDOWN_CODE then SHUTDOWN_STATE
                       else if b == ABNORMAL_CODE then NORMAL_STATE
                       else p.state);
    MotorNext(d, MotorSpeed(adc))
  }

  /** The `while (1)` loop over the bytes received, in order; driver calls
      are only ever appended. */
  function Run(p: Panel, inputs: seq<Input>): (r: Panel)
    ensures |p.log| <= |r.log| && r.log[..|p.log|] == p.log
    decreases |inputs|
  {
    if inputs == [] then p
    else Run(StepNext(p, inputs[0].byte, inputs[0].adc), inputs[1..])
  }

  // ---------------------------------------------------------------------
  // Properties

  /** The Shutdown code stops the motor in the same iteration and leaves the
      LEDs, the buzzer and the servo as they were. */
  lemma ShutdownReceived(p: Panel, adc: uint16)
    ensures var r := StepNext(p, SHUTDOWN_CODE, adc);
      r.state == SHUTDOWN_STATE &&
      r.red == p.red && r.yellow == p.yellow && r.green == p.green &&
      r.buzzer == p.buzzer && r.servo == p.servo &&
      r.motor == Some(Rotate(Stop, 0)) &&
      r.log == p.log + [Motor(Rotate(Stop, 0))]
  {
  }

  /** The Abnormal code plays the alarm sequence (servo out and back, red LED
      alone, buzzer on then off, motor stopped), then returns to Normal and
      drives the motor clockwise at the potentiometer speed. */
  lemma AbnormalReceived(p: Panel, adc: uint16)
    ensures var r := StepNext(p, ABNORMAL_CODE, adc);
      r.state == NORMAL_STATE &&
      r.red && !r.yellow && !r.green && !r.buzzer &&
      r.servo == Some(ROTATE_TO_0_POSITION) &&
      r.motor == Some(Rotate(Clockwise, MotorSpeed(adc))) &&
      r.log == p.log + [ServoTo(ROTATE_TO_90_POSITION), AllLedsOff, LedOn(Red), BuzzerOn,
                        Motor(Rotate(Stop, 0)), BuzzerOff, ServoTo(ROTATE_TO_0_POSITION),
                        Motor(Rotate(Clockwise, MotorSpeed(adc)))]
  {
  }

  /** Exactly one of the three LEDs is lit. */
  predicate OneLedLit(p: Panel) {
    (if p.red then 1 else 0) + (if p.yellow then 1 else 0) + (if p.green then 1 else 0) == 1
  }

  /** Any byte other than the two codes is a temperature: it lights exactly
      one LED, chosen by band, sounds the buzzer exactly above 50 degrees and
      leaves the state and the servo alone. */
  lemma TemperatureReceived(p: Panel, b: uint8, adc: uint16)
    requires b != SHUTDOWN_CODE && b != ABNORMAL_CODE
    ensures var r := StepNext(p, b, adc);
      r.state == p.state && r.servo == p.servo &&
      OneLedLit(r) &&
      (r.green <==> b < 20) && (r.yellow <==> 20 <= b < 40) && (r.red <==> 40 <= b) &&
      (r.buzzer <==> b > 50)
  {
    var d := DecodeNext(p, b);
    MotorKeepsDisplay(d, MotorSpeed(adc));
    if b < 20 {
      assert d.green && !d.red && !d.yellow && !d.buzzer;
    } else if b < 40 {
      assert d.yellow && !d.red && !d.green && !d.buzzer;
    } else if b <= 50 {
      assert d.red && !d.yellow && !d.green && !d.buzzer;
    } else {
      assert d.red && !d.yellow && !d.green && d.buzzer;
    }
  }

  /** The motor command leaves the state, LEDs, buzzer and servo alone. */
  lemma MotorKeepsDisplay(p: Panel, speed: uint8)
    ensures var r := MotorNext(p, speed);
      r.state == p.state && r.red == p.red && r.yellow == p.yellow &&
      r.green == p.green && r.buzzer == p.buzzer && r.servo == p.servo
  {
  }

  /** Shutdown is sticky: as long as the Abnormal code does not arrive, the
      state stays Shutdown and the motor stays stopped, whatever temperatures
      and potentiometer readings come in. */
  lemma {:induction false} ShutdownSticky(p: Panel, inputs: seq<Input>)
    requires p.state == SHUTDOWN_STATE && |inputs| > 0
    requires forall i :: 0 <= i < |inputs| ==> inputs[i].byte != ABNORMAL_CODE
    ensures Run(p, inputs).state == SHUTDOWN_STATE
    ensures Run(p, inputs).motor == Some(Rotate(Stop, 0))
    decreases |inputs|
  {
    var p1 := StepNext(p, inputs[0].byte, inputs[0].adc);
    if |inputs| > 1 {
      ShutdownSticky(p1, inputs[1..]);
    } else {
      assert inputs[1..] == [];
    }
  }

  /** The state never leaves {Normal, Shutdown}, over any run. */
  lemma {:induction false} StateStaysValid(p: Panel, inputs: seq<Input>)
    requires ValidState(p.state)
    ensures ValidState(Run(p, inputs).state)
    decreases |inputs|
  {
    if inputs != [] {
      StateStaysValid(StepNext(p, inputs[0].byte, inputs[0].adc), inputs[1..]);
    }
  }

  // ---------------------------------------------------------------------
  // The node as the source writes it

  class Actuator {
    var state: uint8
    var red: bool
    var yellow: bool
    var green: bool
    var buzzer: bool
    var servo: Option<uint16>
    var motor: Option<MotorCommand>
    var log: seq<Action>

    ghost function Snap(): Panel
      reads this
    {
      Panel(state, red, yellow, green, buzzer, servo, motor, log)
    }

    ghost predicate Valid()
      reads this
    {
      ValidState(state)
    }

    constructor ()
      ensures Valid() && Snap() == Initial()
    {
      state, red, yellow, green, buzzer := NORMAL_STATE, false, false, false, false;
      servo, motor, log := None, None, [];
    }

    method TurnLedOn(c: Color)
      modifies this
      ensures Snap() == Perform(old(Snap()), LedOn(c))
    {
      match c {
        case Red => red := true;
        case Yellow => yellow := true;
        case Green => green := true;
      }
      log := log + [LedOn(c)];
    }

    method TurnLedOff(c: Color)
      modifies this
      ensures Snap() == Perform(old(Snap()), LedOff(c))
    {
      match c {
        case Red => red := false;
        case Yellow => yellow := false;
        case Green => green := false;
      }
      log := log + [LedOff(c)];
    }

    method TurnAllLedsOff()
      modifies this
      ensures Snap() == Perform(old(Snap()), AllLedsOff)
    {
      red, yellow, green := false, false, false;
      log := log + [AllLedsOff];
    }

    method SetBuzzer(on: bool)
      modifies this
      ensures Snap() == Perform(old(Snap()), if on then BuzzerOn else BuzzerOff)
    {
      buzzer := on;
      log := log + [if on then BuzzerOn else BuzzerOff];
    }

    method RotateServo(position: uint16)
      modifies this
      ensures Snap() == Perform(old(Snap()), ServoTo(position))
    {
      servo := Some(position);
      log := log + [ServoTo(position)];
    }

    method RotateMotor(dir: Direction, speed: uint8)
      modifies this
      ensures Snap() == Perform(old(Snap()), Motor(Rotate(dir, speed)))
    {
      motor := Some(Rotate(dir, speed));
      log := log + [Motor(Rotate(dir, speed))];
    }

    /** One iteration of the `while(1)` body: `b` is the received byte and
        `adc` the potentiometer sample. */
    method Step(b: uint8, adc: uint16)
      requires Valid()
      modifies this
      ensures Valid()
      ensures Snap() == StepNext(old(Snap()), b, adc)
    {
      Decode(b);

      var mvop: uint32 := adc;
      var motorSpeed: uint8 := (mvop * 100 / 1023) % 0x100;

      if state == SHUTDOWN_STATE {
        RotateMotor(Stop, 0);
      } else if state == NORMAL_STATE {
        RotateMotor(Clockwise, motorSpeed);
      }
    }

    /** The `switch` on the received byte. */
    method Decode(b: uint8)
      requires Valid()
      modifies this
      ensures Valid()
      ensures Snap() == DecodeNext(old(Snap()), b)
    {
      if b == SHUTDOWN_CODE {
        state := SHUTDOWN_STATE;
      } else if b == ABNORMAL_CODE {
        PlayAbnormalSequence();
        state := NORMAL_STATE;
      } else {
        ShowTemperatureBand(b);
      }
    }

    /** The `case ABNORMAL_CODE` driver calls. */
    method PlayAbnormalSequence()
      modifies this
      ensures Snap() == AbnormalSequence(old(Snap()))
    {
      RotateServo(ROTATE_TO_90_POSITION);
      TurnAllLedsOff();
      TurnLedOn(Red);
      SetBuzzer(true);
      RotateMotor(Stop, 0);
      SetBuzzer(false);
      RotateServo(ROTATE_TO_0_POSITION);
    }

    /** The `default` case: LEDs and buzzer by temperature band. */
    method ShowTemperatureBand(b: uint8)
      modifies this
      ensures Snap() == ShowTemperature(old(Snap()), b)
    {
      if b < 20 {
        TurnLedOff(Red);
        TurnLedOff(Yellow);
        TurnLedOn(Green);
        SetBuzzer(false);
      } else if b >= 20 && b < 40 {
        TurnLedOff(Red);
        TurnLedOff(Green);
        TurnLedOn(Yellow);
        SetBuzzer(false);
      } else if b >= 40 && b <= 50 {
        TurnLedOff(Yellow);
        TurnLedOff(Green);
        TurnLedOn(Red);
        SetBuzzer(false);
      } else if b > 50 {
        TurnLedOff(Yellow);
        TurnLedOff(Green);
        TurnLedOn(Red);
        SetBuzzer(true);
      }
    }
  }
}
