/** The shared state the operator tunes and one step of each input task over
    it: the three welding durations with their derived relay timings, the
    menu selection and edit flag, and the encoder's remembered line levels.
    Each function here is the value-level meaning of one class method of
    SpotWelder.Welder. */
module ControlPanel {
  import opened Arduino

  const MIN_VALUE := 10
  const MAX_VALUE := 400
  /** Relay switching latency subtracted from every operator value. */
  const ADVANCE := 5
  /** The amount one 'i' or 'd' serial command adds or takes away. */
  const SERIAL_STEP := 10
  /** The number of tunable values: pre-impulse, pause, impulse. */
  const VALUE_COUNT := 3

  const KEY_FIRST: Byte := '1' as int
  const KEY_LAST: Byte := '3' as int
  const KEY_INCREMENT: Byte := 'i' as int
  const KEY_DECREMENT: Byte := 'd' as int

  /** The globals the serial and encoder tasks read and write. */
  datatype Panel = Panel(
    values: seq<int>,
    timings: seq<int>,
    selectedValue: int,
    editing: bool,
    encoderPos: int,
    lastEncA: Level,
    lastEncB: Level)

  /** Shape that makes `values[selectedValue]` a valid access. */
  predicate WellFormed(p: Panel) {
    |p.values| == VALUE_COUNT && |p.timings| == VALUE_COUNT && 0 <= p.selectedValue < VALUE_COUNT
  }

  predicate InRange(v: int) {
    MIN_VALUE <= v <= MAX_VALUE
  }

  /** PreCalcTiming: each relay timing is its value less the advance. */
  function PreCalc(values: seq<int>): (t: seq<int>)
    requires |values| == VALUE_COUNT
  {
    [values[0] - ADVANCE, values[1] - ADVANCE, values[2] - ADVANCE]
  }

  /** What holds of the globals at the start of every task step: all values
      in range, timings derived from them, and no encoder movement pending. */
  predicate Inv(p: Panel) {
    && WellFormed(p)
    && InRange(p.values[0]) && InRange(p.values[1]) && InRange(p.values[2])
    && p.timings == PreCalc(p.values)
    && p.encoderPos == 0
  }

  /** The initial values of the globals. */
  function Initial(): (p: Panel)
    ensures Inv(p)
    ensures p.values == [30, 10, 130] && p.selectedValue == 0 && !p.editing
  {
    Panel([30, 10, 130], [25, 5, 125], 0, false, 0, LOW, LOW)
  }

  /** `values[s] += delta`, then `constrain` into range, then PreCalcTiming,
      for the selected index `s`. */
  function Adjust(p: Panel, delta: int): (r: Panel)
    requires WellFormed(p)
    ensures WellFormed(r)
  {
    var s := p.selectedValue;
    var v := p.values[s := Constrain(p.values[s] + delta, MIN_VALUE, MAX_VALUE)];
    p.(values := v, timings := PreCalc(v))
  }

  /** An adjustment recomputes every timing from its value, brings the
      selected value into range (exactly `delta` away when that is in range,
      saturated at the bound it would cross otherwise) and changes nothing
      else. */
  lemma AdjustEffect(p: Panel, delta: int)
    requires WellFormed(p)
    ensures var r := Adjust(p, delta); var s := p.selectedValue;
      && (forall k :: 0 <= k < VALUE_COUNT ==> r.timings[k] == r.values[k] - ADVANCE)
      && InRange(r.values[s])
      && (InRange(p.values[s] + delta) ==> r.values[s] == p.values[s] + delta)
      && (p.values[s] + delta <= MIN_VALUE ==> r.values[s] == MIN_VALUE)
      && (p.values[s] + delta >= MAX_VALUE ==> r.values[s] == MAX_VALUE)
      && (forall k :: 0 <= k < VALUE_COUNT && k != s ==> r.values[k] == p.values[k])
      && r.(values := p.values, timings := p.timings) == p
  {
  }

  predicate IsCommand(c: Byte) {
    KEY_FIRST <= c <= KEY_LAST || c == KEY_INCREMENT || c == KEY_DECREMENT
  }

  /** One byte handled by the serial task: '1'..'3' select, 'i' and 'd'
      adjust the selected value by the serial step, anything else is ignored.
      The three tests follow one another as in the firmware. */
  function SerialCommand(p: Panel, c: Byte): (r: Panel)
    requires WellFormed(p)
    ensures WellFormed(r)
    ensures KEY_FIRST <= c <= KEY_LAST ==> r == p.(selectedValue := c - KEY_FIRST)
    ensures c == KEY_INCREMENT ==> r == Adjust(p, SERIAL_STEP)
    ensures c == KEY_DECREMENT ==> r == Adjust(p, -SERIAL_STEP)
    ensures !IsCommand(c) ==> r == p
  {
    var selected := if KEY_FIRST <= c <= KEY_LAST then p.(selectedValue := c - KEY_FIRST) else p;
    var raised := if c == KEY_INCREMENT then Adjust(selected, SERIAL_STEP) else selected;
    if c == KEY_DECREMENT then Adjust(raised, -SERIAL_STEP) else raised
  }

  /** The step one observed change of the encoder lines contributes. */
  function Direction(a: Level, b: Level): (d: int)
    ensures d == -1 <==> a == LOW && b == HIGH
    ensures d == 1 <==> a == HIGH && b == LOW
    ensures d == 0 <==> a == b
  {
    match (a, b)
    case (LOW, HIGH) => -1
    case (HIGH, LOW) => 1
    case _ => 0
  }

  /** Either encoder line differs from the level seen on the previous poll. */
  predicate Moved(p: Panel, a: Level, b: Level) {
    a != p.lastEncA || b != p.lastEncB
  }

  /** Edit mode, on a change of the lines: the position counter moves by the
      direction, is added to the selected value (clamped, timings
      recomputed), and is reset. */
  function EditMove(p: Panel, a: Level, b: Level): (r: Panel)
    requires WellFormed(p)
    ensures WellFormed(r) && r.encoderPos == 0
  {
    Adjust(p, p.encoderPos + Direction(a, b)).(encoderPos := 0)
  }

  /** Navigation mode, on a change of the lines: the position counter moves by
      the direction, its C++ remainder by 3 clamped to 0..2 becomes the
      selection, and it is reset. */
  function NavigateMove(p: Panel, a: Level, b: Level): (r: Panel)
    requires WellFormed(p)
    ensures WellFormed(r) && r.encoderPos == 0
  {
    p.(selectedValue := Constrain(CppRem(p.encoderPos + Direction(a, b), VALUE_COUNT), 0, VALUE_COUNT - 1),
       encoderPos := 0)
  }

  /** A HIGH button level toggles edit mode. */
  function Toggle(p: Panel, btn: Level): (r: Panel)
  {
    if btn == HIGH then p.(editing := !p.editing) else p
  }

  /** A change of the lines is applied in the mode in force, and the line
      levels are remembered for the next poll. */
  function Track(p: Panel, a: Level, b: Level): (r: Panel)
    requires WellFormed(p)
    ensures WellFormed(r)
  {
    var moved :=
      if !Moved(p, a, b) then p
      else if p.editing then EditMove(p, a, b)
      else NavigateMove(p, a, b);
    moved.(lastEncA := a, lastEncB := b)
  }

  /** One poll of the encoder task with line levels `a`, `b` and button
      level `btn`: the button first, then the lines. */
  function EncoderPoll(p: Panel, a: Level, b: Level, btn: Level): (r: Panel)
    requires WellFormed(p)
    ensures WellFormed(r)
  {
    Track(Toggle(p, btn), a, b)
  }

  /** One step of either input task, taken atomically. */
  datatype Input = SerialByte(c: Byte) | EncoderSample(a: Level, b: Level, btn: Level)

  function Step(p: Panel, i: Input): (r: Panel)
    requires WellFormed(p)
    ensures WellFormed(r)
  {
    match i
    case SerialByte(c) => SerialCommand(p, c)
    case EncoderSample(a, b, btn) => EncoderPoll(p, a, b, btn)
  }

  /** The steps of an interleaving of the two input tasks, applied in order. */
  function Run(p: Panel, ins: seq<Input>): (r: Panel)
    requires WellFormed(p)
    ensures WellFormed(r)
    decreases |ins|
  {
    if ins == [] then p else Run(Step(p, ins[0]), ins[1..])
  }

  // ---------------------------------------------------------------------
  // Properties of the serial decoder

  /** From a state satisfying the invariant, 'i' raises the selected value
      by the serial step up to the maximum, 'd' lowers it down to the
      minimum; the invariant is kept and nothing else changes. */
  lemma SerialAdjustEffect(p: Panel, c: Byte)
    requires Inv(p)
    requires c == KEY_INCREMENT || c == KEY_DECREMENT
    ensures var r := SerialCommand(p, c); var s := p.selectedValue;
      && Inv(r)
      && r.selectedValue == s
      && r.values == p.values[s := if c == KEY_INCREMENT
                                   then Min(p.values[s] + SERIAL_STEP, MAX_VALUE)
                                   else Max(p.values[s] - SERIAL_STEP, MIN_VALUE)]
      && r.(values := p.values, timings := p.timings) == p
  {
    var r := SerialCommand(p, c);
    var s := p.selectedValue;
    var expected := p.values[s := if c == KEY_INCREMENT
                                  then Min(p.values[s] + SERIAL_STEP, MAX_VALUE)
                                  else Max(p.values[s] - SERIAL_STEP, MIN_VALUE)];
    assert r.values == expected by {
      forall k | 0 <= k < VALUE_COUNT ensures r.values[k] == expected[k] {}
    }
  }

  function Min(x: int, y: int): int { if x <= y then x else y }
  function Max(x: int, y: int): int { if x >= y then x else y }

  /** Every serial byte keeps the invariant. */
  lemma SerialCommandKeepsInv(p: Panel, c: Byte)
    requires Inv(p)
    ensures Inv(SerialCommand(p, c))
  {
  }

  // ---------------------------------------------------------------------
  // Properties of the encoder decoder

  /** What one poll does, from any well-formed state: the button toggles edit
      mode exactly when HIGH; the line levels are remembered; without a line
      change nothing else changes; with one the counter is reset and the
      change is applied in the mode now in force. */
  lemma EncoderPollEffect(p: Panel, a: Level, b: Level, btn: Level)
    requires WellFormed(p)
    ensures var r := EncoderPoll(p, a, b, btn);
      && r.editing == (p.editing != (btn == HIGH))
      && r.lastEncA == a && r.lastEncB == b
      && (!Moved(p, a, b) ==> r == p.(editing := r.editing))
      && (Moved(p, a, b) ==> r.encoderPos == 0)
      && (Moved(p, a, b) && r.editing ==>
            r == Adjust(p, p.encoderPos + Direction(a, b)).(editing := true, encoderPos := 0, lastEncA := a, lastEncB := b))
      && (Moved(p, a, b) && !r.editing ==>
            r == p.(editing := false,
                    selectedValue := Constrain(CppRem(p.encoderPos + Direction(a, b), VALUE_COUNT), 0, VALUE_COUNT - 1),
                    encoderPos := 0, lastEncA := a, lastEncB := b))
  {
  }

  /** From a state satisfying the invariant (so the position counter is 0 on
      entry): in edit mode a line change adjusts the selected value by exactly
      the direction, clamped; in navigation mode it selects index 1 when A is
      HIGH and B is LOW and index 0 otherwise, leaving the values alone. */
  lemma EncoderPollUnderInv(p: Panel, a: Level, b: Level, btn: Level)
    requires Inv(p)
    ensures var r := EncoderPoll(p, a, b, btn); var s := p.selectedValue;
      && Inv(r)
      && (Moved(p, a, b) && r.editing ==>
            && r.selectedValue == s
            && r.values == p.values[s := Constrain(p.values[s] + Direction(a, b), MIN_VALUE, MAX_VALUE)])
      && (Moved(p, a, b) && !r.editing ==>
            && r.values == p.values
            && r.selectedValue == (if a == HIGH && b == LOW then 1 else 0))
      && (!Moved(p, a, b) ==> r.values == p.values && r.selectedValue == s)
  {
    EncoderPollEffect(p, a, b, btn);
    var r := EncoderPoll(p, a, b, btn);
    var s := p.selectedValue;
    if Moved(p, a, b) && r.editing {
      var expected := p.values[s := Constrain(p.values[s] + Direction(a, b), MIN_VALUE, MAX_VALUE)];
      assert r.values == expected by {
        forall k | 0 <= k < VALUE_COUNT ensures r.values[k] == expected[k] {}
      }
    }
  }

  /** Every encoder poll keeps the invariant. */
  lemma EncoderPollKeepsInv(p: Panel, a: Level, b: Level, btn: Level)
    requires Inv(p)
    ensures Inv(EncoderPoll(p, a, b, btn))
  {
    EncoderPollUnderInv(p, a, b, btn);
  }

  // ---------------------------------------------------------------------
  // Properties of interleaved runs

  lemma StepKeepsInv(p: Panel, i: Input)
    requires Inv(p)
    ensures Inv(Step(p, i))
  {
    match i
    case SerialByte(c) => SerialCommandKeepsInv(p, c);
    case EncoderSample(a, b, btn) => EncoderPollKeepsInv(p, a, b, btn);
  }

  /** Any interleaving of serial bytes and encoder polls keeps every value in
      `[MIN_VALUE, MAX_VALUE]`, the selection in 0..2, the timings equal to
      the values less the advance, and the position counter at 0. */
  lemma {:induction false} RunKeepsInv(p: Panel, ins: seq<Input>)
    requires Inv(p)
    ensures Inv(Run(p, ins))
    decreases |ins|
  {
    if ins != [] {
      StepKeepsInv(p, ins[0]);
      RunKeepsInv(Step(p, ins[0]), ins[1..]);
    }
  }

  predicate OnlyEncoder(ins: seq<Input>) {
    forall j :: 0 <= j < |ins| ==> ins[j].EncoderSample?
  }

  /** The encoder alone can never bring the selection to index 2 (the
      impulse): only the serial command '3' can. */
  lemma {:induction false} EncoderNeverSelectsImpulse(p: Panel, ins: seq<Input>)
    requires Inv(p) && p.selectedValue != 2
    requires OnlyEncoder(ins)
    ensures Run(p, ins).selectedValue != 2
    decreases |ins|
  {
    if ins != [] {
      var i := ins[0];
      EncoderPollUnderInv(p, i.a, i.b, i.btn);
      assert OnlyEncoder(ins[1..]) by {
        forall j | 0 <= j < |ins[1..]| ensures ins[1..][j].EncoderSample? {
          assert ins[1..][j] == ins[j + 1];
        }
      }
      EncoderNeverSelectsImpulse(Step(p, i), ins[1..]);
    }
  }

  /** The serial burst '2', 'i', 'i', 'i' on the initial state selects the
      pause and raises it from 10 to 40. */
  lemma SerialScenario()
    ensures var r := Run(Initial(), [SerialByte('2' as int), SerialByte('i' as int),
                                     SerialByte('i' as int), SerialByte('i' as int)]);
      r.selectedValue == 1 && r.values == [30, 40, 130] && r.timings == [25, 35, 125]
  {
    var p0 := Initial();
    var p1 := SerialCommand(p0, '2' as int);
    var p2 := SerialCommand(p1, 'i' as int);
    var p3 := SerialCommand(p2, 'i' as int);
    var p4 := SerialCommand(p3, 'i' as int);
    assert p4.values == [30, 40, 130];
    var ins := [SerialByte('2' as int), SerialByte('i' as int), SerialByte('i' as int), SerialByte('i' as int)];
    assert Run(p0, ins) == Run(p1, ins[1..]);
    assert Run(p1, ins[1..]) == Run(p2, ins[2..]);
    assert Run(p2, ins[2..]) == Run(p3, ins[3..]);
    assert Run(p3, ins[3..]) == Run(p4, ins[4..]);
    assert ins[4..] == [];
  }

  /** One detent of the encoder in navigation mode, seen as the four line
      states of a quadrature cycle in either direction, always ends with the
      first value selected, whatever was selected before. */
  lemma DetentSelectsFirst(p: Panel, clockwise: bool)
    requires Inv(p) && !p.editing && p.lastEncA == LOW && p.lastEncB == LOW
    ensures var detent := if clockwise
              then [EncoderSample(HIGH, LOW, LOW), EncoderSample(HIGH, HIGH, LOW),
                    EncoderSample(LOW, HIGH, LOW), EncoderSample(LOW, LOW, LOW)]
              else [EncoderSample(LOW, HIGH, LOW), EncoderSample(HIGH, HIGH, LOW),
                    EncoderSample(HIGH, LOW, LOW), EncoderSample(LOW, LOW, LOW)];
      Run(p, detent).selectedValue == 0
  {
    var detent := if clockwise
      then [EncoderSample(HIGH, LOW, LOW), EncoderSample(HIGH, HIGH, LOW),
            EncoderSample(LOW, HIGH, LOW), EncoderSample(LOW, LOW, LOW)]
      else [EncoderSample(LOW, HIGH, LOW), EncoderSample(HIGH, HIGH, LOW),
            EncoderSample(HIGH, LOW, LOW), EncoderSample(LOW, LOW, LOW)];
    var q := Step(Step(Step(p, detent[0]), detent[1]), detent[2]);
    EncoderPollUnderInv(p, detent[0].a, detent[0].b, LOW);
    EncoderPollUnderInv(Step(p, detent[0]), detent[1].a, detent[1].b, LOW);
    EncoderPollUnderInv(Step(Step(p, detent[0]), detent[1]), detent[2].a, detent[2].b, LOW);
    EncoderPollUnderInv(q, LOW, LOW, LOW);
    assert Run(p, detent) == Run(Step(p, detent[0]), detent[1..]);
    assert Run(Step(p, detent[0]), detent[1..]) == Run(Step(Step(p, detent[0]), detent[1]), detent[2..]);
    assert Run(Step(Step(p, detent[0]), detent[1]), detent[2..]) == Run(q, detent[3..]);
    assert Run(q, detent[3..]) == Run(Step(q, detent[3]), detent[4..]);
    assert detent[4..] == [];
  }
}
