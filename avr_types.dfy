/** Machine types of the AVR target shared by both nodes, and the DC-motor
    command that both main loops issue through `DcMotor_Rotate`. */
module AvrTypes {

  /** `uint8` of the target: every global the supervisory node shares with
      its interrupts, the EEPROM cell and every UART byte. */
  type uint8 = x: int | 0 <= x < 0x100

  /** `uint16`: the ADC sample and the servo compare value. */
  type uint16 = x: int | 0 <= x < 0x1_0000

  /** `uint32`: the actuation node's ADC result variable. */
  type uint32 = x: int | 0 <= x < 0x1_0000_0000

  /** `int` is 16 bits wide on AVR; signed overflow is undefined in C. */
  predicate IsInt16(x: int) {
    -0x8000 <= x < 0x8000
  }

  /** C's `/` on signed operands: the quotient is truncated toward zero,
      unlike Dafny's Euclidean `/`. */
  function CDiv(a: int, b: int): int
    requires b != 0
  {
    if a >= 0 then
      (if b > 0 then a / b else -(a / -b))
    else
      (if b > 0 then -((-a) / b) else (-a) / (-b))
  }

  /** Direction argument of `DcMotor_Rotate`; the anticlockwise direction is
      never used by either node. */
  datatype Direction = Stop | Clockwise

  /** One call `DcMotor_Rotate(dir, speed)`, speed in percent. */
  datatype MotorCommand = Rotate(dir: Direction, speed: uint8)
}
