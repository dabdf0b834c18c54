# ESP32 spot welder firmware, modelled in Dafny

The firmware (`src/main.cpp`) drives a spot welder's relay through two
pulses. A pre-impulse is followed by a pause and then the impulse. The
operator tunes the three durations with a rotary encoder or over the
serial port. Four FreeRTOS tasks share a handful of globals:

- the operator values `values[3]` (start `{30, 10, 130}` ms);
- the relay timings `timings[3]`, always the values less a 5 ms relay
  advance;
- the menu selection and the edit flag;
- the encoder's position counter and the line levels seen on the last
  poll.

This project models the per-step behaviour of the three control tasks:

- **arduino.dfy**: the platform semantics the code relies on. These are
  logic levels, a byte from the serial port, Arduino's `constrain`, and
  the C++ quotient and remainder of `int` (truncated toward zero, unlike
  Dafny's Euclidean `%`).
- **control_panel.dfy**: the shared globals as a value `Panel`, plus one
  step of each input task as a function on it. `SerialCommand` is one
  byte of the serial task. `EncoderPoll` is one poll of the encoder task.
  `Run` is any interleaving of the two. The lemmas state what each step
  does. They also prove that the invariant `Inv` holds from the initial
  state through any interleaving: every value in 10..400, every timing
  equal to its value less the advance, the selection in 0..2, and the
  position counter at 0.
- **sequencer.dfy**: the weld sequencer as a trace of relay writes,
  delays and status changes. The trace is read back by replay functions:
  the final relay level and status, the total delay, the delays spent
  conducting, the statuses shown, and whether the relay ever conducted
  outside ZAPP. Lemmas compute these for the boot prelude, for one loop
  iteration, and for the prelude followed by `n` iterations.
- **spot_welder.dfy**: the globals as the class `Welder`. `values` and
  `timings` are arrays updated in place. Each task body is a method:
  `SerialStep`, `EncoderStep`, `PreCalcTiming`, `Boot` and `FireCycle`.
  Every state-changing method is proved against the matching function of
  `ControlPanel` or trace of `Sequencer`. Each keeps `Valid()`: the
  invariant on the globals, and a trace whose replay matches the status
  and never conducts outside ZAPP.

Where the firmware's documentation describes behaviour that is not in
the code, the model follows the code:

- The code has no `'e'` or `'!'` serial command, no serial-input flush
  and no error status.
- The command-pin arm check is commented out, so the sequencer fires
  cycle after cycle without waiting.
- Selecting with `'1'`..`'3'` does not leave edit mode.
- The timings are recomputed on every change of a value, not at the
  start of each firing sequence: the sequencer task never calls
  PreCalcTiming.
- In navigation mode the encoder does not step through the menu. The
  position counter is reset to 0 after every line change, so the new
  selection is `constrain((0 ± 1 or 0) % 3, 0, 2)`. That is 1 right after
  an A-HIGH/B-LOW edge and 0 otherwise (`-1 % 3` is `-1` in C++, clamped
  to 0). The encoder alone never selects the impulse value; a full detent
  always ends on index 0 (`EncoderNeverSelectsImpulse`,
  `DetentSelectsFirst`).

## Model

| member | source | states |
|---|---|---|
| Arduino.Constrain | src/main.cpp:240 | the result lies in `[lo, hi]`; a value already inside is kept; a value below `lo` gives `lo` and above `hi` gives `hi` |
| Arduino.CppRem | src/main.cpp:296 | the C++ remainder by a positive divisor is smaller than the divisor in magnitude and has the sign of the dividend (`-1 % 3 == -1`) |
| Arduino.CppDivision | src/main.cpp:296 | the truncating quotient times the divisor plus the C++ remainder gives back the dividend |
| ControlPanel.Initial | src/main.cpp:45-56 | the power-up globals (values 30, 10, 130, first entry selected, not editing) satisfy the invariant, so the timings are 25, 5, 125 |
| ControlPanel.PreCalc | src/main.cpp:306-310 | every timing is its value less the 5 ms advance; used by `Inv` and stated for every step by `AdjustEffect` and `RunKeepsInv` |
| ControlPanel.Adjust | src/main.cpp:239-241 | add to the selected value, constrain into 10..400, PreCalcTiming (the same update at src/main.cpp:279-281); its effect is stated by `AdjustEffect` |
| ControlPanel.AdjustEffect | src/main.cpp:239-241 | add, constrain, PreCalcTiming: every timing is its value less 5; the selected value is in 10..400, exactly `v + delta` when that is in range and saturated at 10 or 400 otherwise; nothing else changes |
| ControlPanel.SerialCommand | src/main.cpp:232-248 | `'1'`..`'3'` sets the selection to `c - '1'` and changes nothing else; `'i'` and `'d'` adjust the selected value by +10 and -10; every other byte leaves the whole state unchanged |
| ControlPanel.SerialAdjustEffect | src/main.cpp:238-248 | from an invariant state, `'i'` sets the selected value to `min(v + 10, 400)` and `'d'` to `max(v - 10, 10)`; the selection and the other entries are unchanged and the invariant holds |
| ControlPanel.SerialCommandKeepsInv | src/main.cpp:232-248 | every serial byte keeps the invariant |
| ControlPanel.Direction | src/main.cpp:272-277 | a line change counts -1 exactly when A is LOW and B is HIGH, +1 exactly when A is HIGH and B is LOW, and 0 exactly when A equals B |
| ControlPanel.Toggle | src/main.cpp:264-266 | a HIGH button flips the edit flag; stated by `EncoderPollEffect` |
| ControlPanel.EditMove | src/main.cpp:271-283 | edit mode on a line change: count the direction, add the counter to the selected value with clamping and PreCalcTiming, reset the counter; stated by `EncoderPollEffect` and `EncoderPollUnderInv` |
| ControlPanel.NavigateMove | src/main.cpp:288-298 | navigation mode on a line change: count the direction, select by the clamped C++ remainder by 3, reset the counter; stated by `EncoderPollEffect` and `EncoderPollUnderInv` |
| ControlPanel.Track | src/main.cpp:269-302 | the line half of a poll: a change is applied in the mode in force, then the line levels are remembered; stated by `EncoderPollEffect` |
| ControlPanel.EncoderPoll | src/main.cpp:259-302 | the button, then the lines; its effect is stated by `EncoderPollEffect` and `EncoderPollUnderInv` |
| ControlPanel.EncoderPollEffect | src/main.cpp:264-302 | from any well-formed state: edit mode toggles exactly when the button is HIGH; the line levels are remembered; with no line change nothing else changes; with one, the counter is reset and the move is applied in the mode now in force (an adjust by counter plus direction, or a selection by the clamped C++ remainder) |
| ControlPanel.EncoderPollUnderInv | src/main.cpp:269-297 | from an invariant state: an edit-mode move sets the selected value to `constrain(v + direction, 10, 400)` and keeps the selection; a navigation move keeps the values and selects 1 exactly when A is HIGH and B is LOW, otherwise 0; no line change keeps values and selection; the invariant holds |
| ControlPanel.EncoderPollKeepsInv | src/main.cpp:259-302 | every encoder poll keeps the invariant |
| ControlPanel.Step | src/main.cpp:228-303 | one step of either input task, a serial byte or an encoder poll; kept invariant stated by `StepKeepsInv` |
| ControlPanel.StepKeepsInv | src/main.cpp:228-303 | every step of either input task keeps the invariant |
| ControlPanel.Run | src/main.cpp:228-303 | the steps of an interleaving of the serial and encoder tasks, in order; the invariant over it is stated by `RunKeepsInv` |
| ControlPanel.RunKeepsInv | src/main.cpp:228-303 | any interleaving of serial bytes and encoder polls keeps every value in 10..400, the timings equal to the values less 5, the selection in 0..2 and the counter at 0 |
| ControlPanel.EncoderNeverSelectsImpulse | src/main.cpp:288-297 | starting from an invariant state whose selection is not 2, no sequence of encoder polls alone selects value 2 |
| ControlPanel.SerialScenario | src/main.cpp:234-248 | the bytes `'2' 'i' 'i' 'i'` from power-up select the pause and give values 30, 40, 130 and timings 25, 35, 125 |
| ControlPanel.DetentSelectsFirst | src/main.cpp:288-297 | one full quadrature detent in navigation mode, in either direction, ends with the first value selected |
| Sequencer.BootReplay | src/main.cpp:110-113 | the prelude delays 1000 ms, shows READY and leaves the relay as it was |
| Sequencer.BootEvents | src/main.cpp:110-113 | the prelude as events: a 1000 ms delay, then READY; replayed by `BootReplay` |
| Sequencer.Pulse | src/main.cpp:125-128 | relay HIGH, delay `t`, relay LOW, delay the advance (also the impulse at src/main.cpp:135-138); replayed by `PulseReplay` |
| Sequencer.Pause | src/main.cpp:131-132 | delay `t`, then the advance; replayed by `PauseReplay` |
| Sequencer.CoolDown | src/main.cpp:140-146 | COOLING, a 5000 ms delay, READY; replayed by `CoolDownReplay` |
| Sequencer.Cycle | src/main.cpp:123-146 | ZAPP, the pre-impulse pulse, the pause, the impulse pulse, the cool-down; replayed by `CycleReplay` |
| Sequencer.Program | src/main.cpp:110-148 | the prelude, then `n` loop iterations on the same timings; replayed by `ProgramReplay` |
| Sequencer.PulseReplay | src/main.cpp:125-128 | a pulse in status ZAPP conducts exactly for `t`, ends LOW and takes `t + 5` ms |
| Sequencer.PauseReplay | src/main.cpp:131-132 | the pause never conducts and takes `t + 5` ms |
| Sequencer.CoolDownReplay | src/main.cpp:140-146 | the cool-down shows COOLING then READY, never conducts and takes 5000 ms |
| Sequencer.CycleReplay | src/main.cpp:123-146 | one loop iteration conducts exactly twice, for `timings[0]` then `timings[2]`, only in status ZAPP; it ends LOW and READY after showing ZAPP, COOLING, READY; its delays total `timings[0] + timings[1] + timings[2] + 15 + 5000` |
| Sequencer.ProgramReplay | src/main.cpp:110-148 | after the prelude and `n` iterations: the relay is LOW and the status READY; the relay conducted `2n` times, alternately for `timings[0]` and `timings[2]`, never outside ZAPP; the time taken is `1000 + n` cycle lengths; all with the timings unchanged throughout (timings that change between cycles are covered by chaining `SpotWelder.Welder.FireCycle`, which keeps `Valid()` on every call) |
| SpotWelder.Welder.constructor | src/main.cpp:45-56 | the globals at power-up form the initial panel, in a valid state with status BOOTING and an empty trace |
| SpotWelder.Welder.PreCalcTiming | src/main.cpp:306-310 | the timings buffer becomes the values less 5, entry by entry |
| SpotWelder.Welder.AdjustSelected | src/main.cpp:239-241 | the in-place add, constrain and PreCalcTiming leave the globals as `Adjust` of the old ones |
| SpotWelder.Welder.SerialStep | src/main.cpp:230-249 | one serial byte changes the globals as `SerialCommand` does, keeps `Valid()` and leaves the status and trace alone |
| SpotWelder.Welder.Count | src/main.cpp:272-277 | the counter moves by the direction of the line levels |
| SpotWelder.Welder.EditMove | src/main.cpp:271-283 | an edit-mode line change updates the globals as `ControlPanel.EditMove` |
| SpotWelder.Welder.NavigateMove | src/main.cpp:288-298 | a navigation-mode line change updates the globals as `ControlPanel.NavigateMove` |
| SpotWelder.Welder.ToggleEditing | src/main.cpp:264-266 | a HIGH button toggles the edit flag |
| SpotWelder.Welder.TrackLines | src/main.cpp:269-302 | the line half of a poll updates the globals as `ControlPanel.Track` |
| SpotWelder.Welder.EncoderStep | src/main.cpp:259-302 | one encoder poll changes the globals as `EncoderPoll` does, keeps `Valid()` and leaves the status and trace alone |
| SpotWelder.Welder.Boot | src/main.cpp:110-113 | from status BOOTING, the prelude appends the boot events, shows READY, keeps `Valid()` and leaves the globals alone |
| SpotWelder.Welder.PulsePhase | src/main.cpp:125-128 | appends exactly `Pulse(t)` to the trace (also the impulse at src/main.cpp:135-138) |
| SpotWelder.Welder.PausePhase | src/main.cpp:131-132 | appends exactly `Pause(t)` to the trace |
| SpotWelder.Welder.CoolDownPhase | src/main.cpp:140-146 | appends exactly `CoolDown()` to the trace and ends with status READY |
| SpotWelder.Welder.FireCycle | src/main.cpp:123-146 | from status READY (so only after the prelude), one loop iteration appends `Cycle` of the timings buffer, ends READY, keeps `Valid()` (so the relay never conducted outside ZAPP) and leaves the globals alone |

## Left out

- Task creation, priorities and core pinning (`setup`): each task body is one atomic step, and interleavings are modelled as sequences of those steps (`ControlPanel.Run`). Torn reads of the unlocked shared globals are not modelled.
- SpotWelder.Welder.FireCycle and Sequencer.Cycle take one loop iteration of the sequencer as one atomic step, over one snapshot of the timings buffer. The firmware reads `timings[1]` and `timings[2]` (src/main.cpp:131, 136) only after yielding for the pre-impulse and the advance, so an edit made by the serial or encoder task during that yield changes the pause or impulse of the same shot; the model does not capture that interleaving inside a cycle.
- Hardware I/O (`pinMode`, `digitalRead`, `Serial.available`, `Serial.read`): line and button levels and serial bytes are step parameters. A poll that finds no serial byte does nothing and is not modelled as a step.
- `digitalWrite` and `vTaskDelay` become trace events. A delay is recorded in milliseconds, taking `portTICK_PERIOD_MS` as 1, so the integer division by the tick period is not modelled.
- The relay level before the first write is taken as LOW (the pin has not been driven yet).
- The OLED renderer `TaskDrawMenu`, the display object and the `valuesNames` strings: the renderer only reads the state. The `status` string is an enumeration.
- The empty Arduino `loop` and the unused locals `mls` and `commandStatus` of the sequencer task.
- 32-bit `int` width: values are unbounded integers. The invariant keeps every value in 10..400 and the counter in -1..1, far from overflow.
- Arduino.CppRem: only positive divisors are modelled, because the firmware only divides by 3.
