# Two-node car cooling controller: the mode state machine and the alarm decoder

This project models the two application loops of an AVR-based car cooling
system and proves properties of them in Dafny 4.11.

- **Supervisory node (MCU_1).** Each cycle it reads the operating mode from
  EEPROM slot 0 and samples the LM35 temperature. It sends the temperature
  over the UART, then applies the mode's transition table:
  - Normal drives the fan motor from the temperature, or escalates to
    Emergency above 50 degrees.
  - Emergency escalates to Abnormal once 14 timer ticks have been counted.
    Otherwise it falls back to Normal below 50 degrees.
  - Abnormal runs the motor at full speed and arms the watchdog with its
    shortest period.

  A Timer1 callback (`emergencyTick`) counts ticks while in Emergency. The
  INT0 interrupt (the shutdown button) sends the Shutdown code 0xFF when the
  last temperature was in [40, 50].
- **Actuation node (MCU_2).** Each iteration it receives one byte and
  decodes it:
  - 0xFF switches to Shutdown.
  - 0xFE plays the Abnormal sequence (servo, LEDs, buzzer, motor stop) and
    returns to Normal.
  - Any other byte is a temperature that lights one of three LEDs and
    decides the buzzer.

  It then stops the motor in Shutdown, or in Normal runs it clockwise at the
  potentiometer speed.

Files:

- `avr_types.dfy` (module `AvrTypes`) holds the machine integer types, C's
  truncating division and the DC-motor command.
- `supervisor.dfy` (module `SupervisoryNode`) models MCU_1. The node's
  globals and EEPROM slot form the value `Sys`. Boot, tick, edge and cycle
  are functions on `Sys` (`BootNext`, `TickNext`, `EdgeNext`, `CycleNext`).
  A `Run` takes any interleaving of ticks, edges and cycles. The class
  `Supervisor` has the same globals as fields. Its methods `Boot`, `Tick`,
  `Edge` and `Cycle` update them step by step in the source's order, and
  each is proved to agree with its function.
- `actuator.dfy` (module `ActuationNode`) models MCU_2 the same way. It has
  the value `Panel`, the function `StepNext`, and the class `Actuator` with
  `Step(b, adc)`.
- `link.dfy` (module `Link`) connects the two nodes over the UART byte
  stream.

The model keeps two logs, one per node:

- MCU_1's log records UART bytes, motor commands, EEPROM writes and
  watchdog arming.
- MCU_2's log records every LED, buzzer, servo and motor call. The UART
  receive and the ADC read are not logged; their results are parameters.

Ordering properties are stated on these logs.

Where the code departs from what its structure, names or comments suggest,
the model follows the code:

- **Boot always writes Normal.** Boot overwrites slot 0 with Normal
  (MCU_1/APP/MCU_1.c:144). A watchdog reset therefore does not resume in
  Abnormal (`BootForgetsPersistedMode`).
- **The temperature byte comes first.** Each cycle sends the temperature
  byte before it writes the store (MCU_1/APP/MCU_1.c:151). The write does
  not precede every output of the cycle (`CycleNext`).
- **The counter survives leaving Emergency.** The counter is not zero
  whenever the mode is not Emergency. It survives Emergency→Normal and
  Emergency→Abnormal until the next tick or Abnormal cycle
  (`CounterKeptAcrossReturn`, `EmergencyCycle`).
- **50 degrees stays in Emergency.** The return test is `< 50`.

## Model

| member | source | states |
|---|---|---|
| `SupervisoryNode.MapToPercentage` | MCU_1/APP/MCU_1.c:92-100 | clamp then scale: on an increasing range the result is in [0,100], 0 at or below the minimum, 100 at or above the maximum; a reversed range gives 100; the bounds must differ and the range width times 100 must fit a 16-bit `int` |
| `SupervisoryNode.PercentageOnControlBand` | MCU_1/APP/MCU_1.c:163-166 | on the band 20..40 used by the main loop the speed is (T−20)·5 percent |
| `SupervisoryNode.PercentageMonotone` | MCU_1/APP/MCU_1.c:92-100 | a higher input never yields a lower percentage |
| `SupervisoryNode.PowerOn` | MCU_1/APP/MCU_1.c:38-41 | after a reset the globals hold temperature 0, counter 0, Normal and a clear flag; EEPROM slot 0 keeps the persisted byte; nothing has been done yet |
| `SupervisoryNode.BootNext` | MCU_1/APP/MCU_1.c:144 | the boot write leaves slot 0 holding Normal whatever it held, records one write, and changes nothing else |
| `SupervisoryNode.TickNext` | MCU_1/APP/MCU_1.c:70-78 | a tick changes only the counter; the counter is non-zero afterwards only in Emergency, where it grows by one below 255 |
| `SupervisoryNode.EdgeNext` | MCU_1/APP/MCU_1.c:54-58 | the INT0 handler changes only the output log, adding at most one byte, and adds one iff the cached temperature is in [40,50] |
| `SupervisoryNode.SwitchNext` | MCU_1/APP/MCU_1.c:154-200 | the `switch` keeps the reading and the flag, only appends effects, persists every mode change it makes, and clears the counter exactly in Abnormal |
| `SupervisoryNode.ShutdownAlarm` | MCU_1/APP/MCU_1.c:203-208 | the button block sends at most the Shutdown code, and sends it iff the flag is set and 40≤T≤50 |
| `SupervisoryNode.CycleNext` | MCU_1/APP/MCU_1.c:148-208 | a cycle caches the new reading, always consumes the button flag, only appends effects, and its first effect is the temperature byte |
| `SupervisoryNode.Run` | MCU_1/APP/MCU_1.c:146-209 | over any interleaving of ticks, edges, button presses and cycles, effects are only ever appended |
| `SupervisoryNode.BootForgetsPersistedMode` | MCU_1/APP/MCU_1.c:144 | after a reset slot 0 holds Normal whatever was persisted; the first cycle neither enters Abnormal nor arms the watchdog |
| `SupervisoryNode.EarlyEdgeSilent` | MCU_1/APP/MCU_1.c:38-58 | an INT0 edge after the boot write but before the first cycle sees the zero-initialised temperature and sends nothing |
| `SupervisoryNode.TickEffect` | MCU_1/APP/MCU_1.c:70-78 | a tick changes only the counter: +1 wrapping 255 to 0 in Emergency, 0 otherwise |
| `SupervisoryNode.TicksInEmergency` | MCU_1/APP/MCU_1.c:70-78 | k ticks in Emergency add k to the counter modulo 256 and change nothing else |
| `SupervisoryNode.EdgeAlarmIff` | MCU_1/APP/MCU_1.c:54-58 | the INT0 handler sends 0xFF iff the cached temperature is in [40,50], sends at most one byte and changes no mode, counter or store |
| `SupervisoryNode.NormalCycle` | MCU_1/APP/MCU_1.c:156-177 | persisted Normal: T≤20 stores Normal and stops; 21..39 stores Normal and runs at (T−20)·5; 40..50 stores Normal and runs at 100; T>50 stores Emergency with no motor command; counter untouched |
| `SupervisoryNode.EmergencyCycle` | MCU_1/APP/MCU_1.c:179-190 | persisted Emergency: counter ≥14 stores Abnormal and sends 0xFE with no motor command; else T<50 stores Normal then runs at 100; else nothing stored, stays Emergency, runs at 100 |
| `SupervisoryNode.AbnormalCycle` | MCU_1/APP/MCU_1.c:192-196 | persisted Abnormal: no store write, counter 0, motor at 100 and the watchdog armed once with timeout 0x00 |
| `SupervisoryNode.GarbageModeStalls` | MCU_1/APP/MCU_1.c:198-199 | a persisted byte above 2 keeps mode, store and counter and sends the temperature: no motor command, no store write, no Abnormal code; the button block may still send 0xFF |
| `SupervisoryNode.ButtonAlarmIff` | MCU_1/APP/MCU_1.c:203-208 | after the temperature byte, 0xFF is sent iff the button flag was set and 40≤T≤50; the flag never affects mode, store or counter |
| `SupervisoryNode.AbnormalCodeIff` | MCU_1/APP/MCU_1.c:180-184 | after the temperature byte, a cycle sends 0xFE iff Emergency is persisted with counter ≥14, which is also exactly when the cycle newly stores Abnormal |
| `SupervisoryNode.CycleDeterminedByInputs` | MCU_1/APP/MCU_1.c:148-208 | a cycle's next mode, store, counter and effects depend only on the persisted mode, counter, button flag and reading |
| `SupervisoryNode.EmergencyHeld` | MCU_1/APP/MCU_1.c:179-190 | while every cycle reads ≥50 and fewer than 14 ticks are counted, the node stays in Emergency, the counter equals the ticks taken and the store is never written |
| `SupervisoryNode.Escalation` | MCU_1/APP/MCU_1.c:173-184 | held above 50 from Normal with counter 0: Normal→Emergency, Emergency through 13 ticks, and the first cycle after the 14th tick stores Abnormal and sends exactly [T, Abnormal write, 0xFE] |
| `SupervisoryNode.CounterKeptAcrossReturn` | MCU_1/APP/MCU_1.c:185-188 | Emergency→Normal→Emergency with no tick in between keeps the old count |
| `SupervisoryNode.AbnormalAbsorbing` | MCU_1/APP/MCU_1.c:192-196 | from persisted Abnormal, any run keeps slot 0 at Abnormal, never writes it, and never sends 0xFE unless a reading of 254 is forwarded |
| `SupervisoryNode.Supervisor.constructor` | MCU_1/APP/MCU_1.c:38-41 | the globals start at temperature 0, counter 0, Normal, flag clear; the EEPROM keeps its byte |
| `SupervisoryNode.Supervisor.ReadSlot` | MCU_1/MCAL/internal_EEPROM.c:70-86 | reading slot 0 returns the last byte written |
| `SupervisoryNode.Supervisor.WriteSlot` | MCU_1/MCAL/internal_EEPROM.c:38-55 | writing slot 0 stores the byte and records the write |
| `SupervisoryNode.Supervisor.Boot` | MCU_1/APP/MCU_1.c:144 | the in-place boot write agrees with `BootNext` |
| `SupervisoryNode.Supervisor.Tick` | MCU_1/APP/MCU_1.c:70-78 | the in-place tick agrees with `TickNext` and touches only the counter |
| `SupervisoryNode.Supervisor.Edge` | MCU_1/APP/MCU_1.c:54-58 | the in-place interrupt handler agrees with `EdgeNext` and touches only the output log |
| `SupervisoryNode.Supervisor.Cycle` | MCU_1/APP/MCU_1.c:146-209 | one in-place loop iteration agrees with `CycleNext` |
| `SupervisoryNode.Supervisor.Switch` | MCU_1/APP/MCU_1.c:154-200 | the in-place `switch (state)` agrees with the transition table `SwitchNext` |
| `ActuationNode.MotorSpeed` | MCU_2/APP/MCU_2.c:124-125 | for a 10-bit sample the speed is ⌊adc·100/1023⌋, hence in [0,100] |
| `ActuationNode.Initial` | MCU_2/APP/MCU_2.c:42-68 | after initialisation the state is Normal, the LED and buzzer pins low, servo and motor not yet commanded, no driver call logged |
| `ActuationNode.DecodeNext` | MCU_2/APP/MCU_2.c:75-121 | 0xFF sets Shutdown with no driver call, 0xFE sets Normal, any other byte keeps the state; only 0xFE touches the motor, and then stops it |
| `ActuationNode.AbnormalSequence` | MCU_2/APP/MCU_2.c:83-90 | the seven driver calls in order leave the red LED alone lit, the buzzer off, the servo back at 124 and the motor stopped |
| `ActuationNode.ShowTemperature` | MCU_2/APP/MCU_2.c:94-120 | green iff b<20, yellow iff 20≤b<40, red iff b≥40, buzzer iff b>50; four driver calls; state, servo and motor untouched |
| `ActuationNode.MotorNext` | MCU_2/APP/MCU_2.c:127-133 | only the motor changes: stopped in Shutdown, clockwise at `motorSpeed` in Normal, no call in any other state |
| `ActuationNode.StepNext` | MCU_2/APP/MCU_2.c:72-133 | only 0xFF (to Shutdown) and 0xFE (to Normal) change the state; from a valid state the state stays valid and the motor ends stopped in Shutdown, clockwise at `motorSpeed` in Normal |
| `ActuationNode.Run` | MCU_2/APP/MCU_2.c:70-134 | the `while (1)` loop over the received bytes in order only ever appends driver calls |
| `ActuationNode.ShutdownReceived` | MCU_2/APP/MCU_2.c:76-129 | 0xFF sets Shutdown, leaves LEDs, buzzer and servo untouched and stops the motor in the same iteration |
| `ActuationNode.AbnormalReceived` | MCU_2/APP/MCU_2.c:81-133 | 0xFE issues servo 187, all LEDs off, red on, buzzer on, motor stop, buzzer off, servo 124, in that order, then state Normal and motor clockwise at `motorSpeed` |
| `ActuationNode.TemperatureReceived` | MCU_2/APP/MCU_2.c:94-120 | any other byte lights exactly one LED (green <20, yellow 20..39, red ≥40), buzzer on iff b>50, state and servo unchanged |
| `ActuationNode.ShutdownSticky` | MCU_2/APP/MCU_2.c:75-133 | once in Shutdown, any run without 0xFE keeps the state Shutdown and the motor stopped |
| `ActuationNode.StateStaysValid` | MCU_2/APP/MCU_2.c:68-92 | over any run the state is only ever Normal or Shutdown |
| `ActuationNode.Actuator.constructor` | MCU_2/APP/MCU_2.c:42-68 | after initialisation the state is Normal, LEDs and buzzer off, servo and motor not yet commanded |
| `ActuationNode.Actuator.Step` | MCU_2/APP/MCU_2.c:70-134 | one in-place loop iteration agrees with `StepNext` and keeps the state in {Normal, Shutdown} |
| `ActuationNode.Actuator.Decode` | MCU_2/APP/MCU_2.c:75-121 | the in-place `switch` on the received byte agrees with `DecodeNext` and keeps the state in {Normal, Shutdown} |
| `ActuationNode.Actuator.PlayAbnormalSequence` | MCU_2/APP/MCU_2.c:83-90 | the in-place driver calls of the Abnormal case agree with `AbnormalSequence` |
| `ActuationNode.Actuator.ShowTemperatureBand` | MCU_2/APP/MCU_2.c:94-120 | the in-place LED and buzzer calls of the `default` case agree with `ShowTemperature` |
| `Link.EscalationBytes` | MCU_1/APP/MCU_1.c:180-208 | an escalating cycle, at any reading, puts [T, 0xFE] on the wire, followed by 0xFF exactly when the flag is set and 40≤T≤50 |
| `Link.EscalationAlertsPeer` | MCU_1/APP/MCU_1.c:180-184 | an escalating cycle whose button block stays silent puts exactly [T, 0xFE] on the wire, and the peer then ends in Normal with red only, buzzer off, servo at rest and the motor at `motorSpeed` |
| `Link.EscalationThenShutdown` | MCU_1/APP/MCU_1.c:180-208 | an escalating cycle with the flag set and 40≤T≤50 puts [T, 0xFE, 0xFF] on the wire; the peer plays the Abnormal sequence and ends in Shutdown with the motor stopped, red only, buzzer off, servo at rest |
| `Link.ReadingAliasesAbnormalCode` | MCU_1/APP/MCU_1.c:150-151 | a reading of 254 is sent as the byte 0xFE: the sender only enters Emergency, but the peer plays the Abnormal sequence |
| `Link.ReadingAliasesShutdownCode` | MCU_1/APP/MCU_1.c:150-151 | a reading of 255 is sent as the byte 0xFF: the sender enters Emergency, the peer enters Shutdown and stops its motor |

## Left out

- Register-level drivers are not modelled: GPIO, LED pins, servo PWM,
  Timer1 configuration and callback slot, button pin, DC-motor pins. Each
  driver call becomes an entry in a log.
- The EEPROM busy-waits and register sequence are not modelled. Slot 0 is
  a one-byte field where a read returns the last write. Other addresses are
  never used.
- The watchdog register sequence and the reset itself are not modelled.
  `WDT_ON(TIME_OUT_16MS)` is recorded as a `WatchdogOn(0x00)` effect. A
  reset is modelled only by starting again from `PowerOn` and `Boot`.
- UART configuration and framing are not modelled. Sending appends the
  byte to the log. On MCU_2 the received byte is a parameter.
- The ADC, the LM35 sensor and the potentiometer are not modelled. Their
  samples are parameters. The ADC driver is not part of this model. Its
  result is taken as a 16-bit value.
- Real time is not modelled: `_delay_ms(5000)` in the Abnormal sequence of
  MCU_2, and the tick period set by Timer1's compare value 488.
- Interrupt preemption and `volatile` semantics are not modelled. A tick
  and an edge are atomic steps taken between cycles, never inside one.
- The shown code never sets `buttonPressed`. The model treats it as a field
  that an outside writer may set. Every cycle's contract covers both
  values. In runs, the step `Press` sets it between any two other steps.
- The model does not choose between temperature bytes and codes. A reading
  of 254 or 255 is sent unchanged and decoded by the peer as a code. The
  model exhibits this collision (`Link.ReadingAliasesAbnormalCode`,
  `Link.ReadingAliasesShutdownCode`) and does not resolve it.
- `SHUTDOWN_STATE` is defined on MCU_1 but never used there.
- The UART link is assumed lossless and in order: the `Link` lemmas feed the
  peer exactly the bytes the sender emitted. MCU_1 sends on every cycle
  with no delay, while MCU_2 spends 5 s in the Abnormal sequence between
  receives (MCU_2/APP/MCU_2.c:88). Receive-buffer overruns and dropped
  bytes are not modelled.
- SupervisoryNode.MapToPercentage: the contract gives the range and the end
  points. It does not give the exact value for every input.
  `PercentageOnControlBand` states the value on the band 20..40, which is
  the only band the main loop uses.
