/** The firmware's global state as one object, and the body of each control
    task as a method on it: one byte of the serial task, one poll of the
    encoder task, the prelude and one loop iteration of the sequencer task.
    Each method is proved against the value-level step of ControlPanel or
    the trace of Sequencer, and keeps the invariant that every value is in
    range, every timing is its value less the advance, and the relay has
    never conducted outside ZAPP. */
module SpotWelder {
  import opened Arduino
  import opened ControlPanel
  import opened Sequencer

  class Welder {
    const values: array<int>
    const timings: array<int>
    var status: Status
    var selectedValue: int
    var editing: bool
    var encoderPos: int
    var lastEncA: Level
    var lastEncB: Level
    /** Everything the sequencer has done to the relay, the clock and the
        status, oldest first. */
    var trace: seq<Event>

    /** The two buffers have the firmware's size and are distinct. */
    ghost predicate Buffers()
      reads this
    {
      values.Length == VALUE_COUNT && timings.Length == VALUE_COUNT && values != timings
    }

    /** The globals the input tasks share, as a value. */
    ghost function Model(): Panel
      reads this, values, timings
    {
      Panel(values[..], timings[..], selectedValue, editing, encoderPos, lastEncA, lastEncB)
    }

    ghost predicate Valid()
      reads this, values, timings
    {
      && Buffers()
      && Inv(Model())
      && After(trace, Output(LOW, BOOTING)) == Output(LOW, status)
      && ConductsOnlyInZapp(trace, Output(LOW, BOOTING))
    }

    /** The state at power-up: values {30, 10, 130}, timings {25, 5, 125},
        status BOOTING, first value selected, not editing. */
    constructor ()
      ensures Valid() && fresh(values) && fresh(timings)
      ensures Model() == Initial() && status == BOOTING && trace == []
    {
      values := new int[3] [30, 10, 130];
      timings := new int[3] [25, 5, 125];
      status := BOOTING;
      selectedValue := 0;
      editing := false;
      encoderPos := 0;
      lastEncA := LOW;
      lastEncB := LOW;
      trace := [];
    }

    /** PreCalcTiming: recompute all three timings from the values. */
    method PreCalcTiming()
      requires Buffers()
      modifies timings
      ensures Model().timings == PreCalc(Model().values)
    {
      timings[0] := values[0] - ADVANCE;
      timings[1] := values[1] - ADVANCE;
      timings[2] := values[2] - ADVANCE;
    }

    /** `values[selectedValue] += delta`, constrain it into range, then
        PreCalcTiming: the update both input tasks apply to the selected value. */
    method AdjustSelected(delta: int)
      requires Buffers() && WellFormed(Model())
      modifies values, timings
      ensures Model() == Adjust(old(Model()), delta)
    {
      values[selectedValue] := values[selectedValue] + delta;
      values[selectedValue] := Constrain(values[selectedValue], MIN_VALUE, MAX_VALUE);
      PreCalcTiming();
    }

    /** One byte `c` read by the serial task. */
    method SerialStep(c: Byte)
      requires Valid()
      modifies this, values, timings
      ensures Valid()
      ensures Model() == SerialCommand(old(Model()), c)
      ensures status == old(status) && trace == old(trace)
    {
      ghost var before := Model();
      if KEY_FIRST <= c <= KEY_LAST {
        selectedValue := c - KEY_FIRST;
      }
      if c == KEY_INCREMENT {
        AdjustSelected(SERIAL_STEP);
      }
      if c == KEY_DECREMENT {
        AdjustSelected(-SERIAL_STEP);
      }
      SerialCommandKeepsInv(before, c);
    }

    /** The position counter update both branches of the encoder task make
        on a change of the lines. */
    method Count(encA: Level, encB: Level)
      modifies this`encoderPos
      ensures encoderPos == old(encoderPos) + Direction(encA, encB)
    {
      if encA == LOW && encB == HIGH {
        encoderPos := encoderPos - 1;
      }
      if encA == HIGH && encB == LOW {
        encoderPos := encoderPos + 1;
      }
    }

    /** Edit mode, on a change of the lines: count it, add the counter to
        the selected value, clamp, recompute the timings, reset the counter. */
    method EditMove(encA: Level, encB: Level)
      requires Buffers() && WellFormed(Model())
      modifies this`encoderPos, values, timings
      ensures Model() == ControlPanel.EditMove(old(Model()), encA, encB)
    {
      Count(encA, encB);
      AdjustSelected(encoderPos);
      encoderPos := 0;
    }

    /** Navigation mode, on a change of the lines: count it, select by the
        C++ remainder of the counter by 3, clamped to 0..2, reset the counter. */
    method NavigateMove(encA: Level, encB: Level)
      requires Buffers() && WellFormed(Model())
      modifies this`encoderPos, this`selectedValue
      ensures Model() == ControlPanel.NavigateMove(old(Model()), encA, encB)
    {
      Count(encA, encB);
      selectedValue := Constrain(CppRem(encoderPos, VALUE_COUNT), 0, VALUE_COUNT - 1);
      encoderPos := 0;
    }

    /** The button half of an encoder poll. */
    method ToggleEditing(encBtn: Level)
      modifies this`editing
      ensures Model() == Toggle(old(Model()), encBtn)
    {
      if encBtn == HIGH {
        editing := !editing;
      }
    }

    /** The line half of an encoder poll. */
    method TrackLines(encA: Level, encB: Level)
      requires Buffers() && WellFormed(Model())
      modifies this`encoderPos, this`selectedValue, this`lastEncA, this`lastEncB, values, timings
      ensures Model() == Track(old(Model()), encA, encB)
    {
      if editing {
        if encA != lastEncA || encB != lastEncB {
          EditMove(encA, encB);
        }
      } else {
        if encA != lastEncA || encB != lastEncB {
          NavigateMove(encA, encB);
        }
      }
      lastEncA := encA;
      lastEncB := encB;
    }

    /** One poll of the encoder task, with the levels read from lines A and
        B and from the push button. */
    method EncoderStep(encA: Level, encB: Level, encBtn: Level)
      requires Valid()
      modifies this, values, timings
      ensures Valid()
      ensures Model() == EncoderPoll(old(Model()), encA, encB, encBtn)
      ensures status == old(status) && trace == old(trace)
    {
      ghost var before := Model();
      ToggleEditing(encBtn);
      TrackLines(encA, encB);
      EncoderPollKeepsInv(before, encA, encB, encBtn);
    }

    /** digitalWrite(RELAY_PIN, level). */
    method DigitalWrite(level: Level)
      modifies this`trace
      ensures trace == old(trace) + [Relay(level)] && status == old(status)
    {
      trace := trace + [Relay(level)];
    }

    /** vTaskDelay for `ms` milliseconds. */
    method TaskDelay(ms: int)
      modifies this`trace
      ensures trace == old(trace) + [Delay(ms)] && status == old(status)
    {
      trace := trace + [Delay(ms)];
    }

    /** status = s, which the display picks up. */
    method SetStatus(s: Status)
      modifies this`trace, this`status
      ensures trace == old(trace) + [Show(s)] && status == s
    {
      status := s;
      trace := trace + [Show(s)];
    }

    /** The prelude of the sequencer task: settle, then READY. It runs once,
        from the power-up status. */
    method Boot()
      requires Valid() && status == BOOTING
      modifies this`trace, this`status
      ensures Valid()
      ensures trace == old(trace) + BootEvents() && status == READY
      ensures Model() == old(Model())
    {
      ghost var before := trace;
      TaskDelay(BOOT_DELAY);
      SetStatus(READY);
      assert trace == before + BootEvents();
      BootReplay(After(before, Output(LOW, BOOTING)));
      ReplayAppend(before, BootEvents(), Output(LOW, BOOTING));
    }

    /** The pre-impulse or the impulse: relay HIGH for `t`, then LOW, then
        the advance. */
    method PulsePhase(t: int)
      modifies this`trace
      ensures trace == old(trace) + Pulse(t)
    {
      DigitalWrite(HIGH);
      TaskDelay(t);
      DigitalWrite(LOW);
      TaskDelay(ADVANCE);
    }

    /** The pause: the relay stays LOW for `t`, then the advance. */
    method PausePhase(t: int)
      modifies this`trace
      ensures trace == old(trace) + Pause(t)
    {
      TaskDelay(t);
      TaskDelay(ADVANCE);
    }

    /** COOLING for the cool-down, then READY. */
    method CoolDownPhase()
      modifies this`trace, this`status
      ensures trace == old(trace) + CoolDown() && status == READY
    {
      SetStatus(COOLING);
      TaskDelay(COOL_DOWN);
      SetStatus(READY);
    }

    /** One iteration of the sequencer loop: ZAPP, pre-impulse, pause,
        impulse, cool-down, each timing read from the timings buffer. The
        loop is entered only after the prelude, and each iteration ends
        READY for the next. */
    method FireCycle()
      requires Valid() && status == READY
      modifies this`trace, this`status
      ensures Valid()
      ensures trace == old(trace) + Cycle(timings[..]) && status == READY
      ensures Model() == old(Model())
    {
      ghost var before := trace;
      SetStatus(ZAPP);
      PulsePhase(timings[0]);
      PausePhase(timings[1]);
      PulsePhase(timings[2]);
      CoolDownPhase();
      assert trace == before + Cycle(timings[..]);
      CycleReplay(timings[..], After(before, Output(LOW, BOOTING)));
      ReplayAppend(before, Cycle(timings[..]), Output(LOW, BOOTING));
    }
  }
}
