/** The welding sequencer's observable behaviour as a trace: relay writes,
    task delays (in milliseconds) and changes of the status shown on the
    display. A trace is read back by replaying it from a relay level and a
    status, so that properties of one weld cycle compose over many. */
module Sequencer {
  import opened Arduino
  import ControlPanel

  /** The status string of the firmware, as an enumeration. */
  datatype Status = BOOTING | READY | ZAPP | COOLING

  datatype Event =
    | Relay(level: Level)    // digitalWrite(RELAY_PIN, level)
    | Delay(ms: int)         // vTaskDelay(ms / portTICK_PERIOD_MS)
    | Show(status: Status)   // status = "..."

  const BOOT_DELAY := 1000
  const COOL_DOWN := 5000

  /** The prelude of the sequencer task: a settle delay, then READY. */
  function BootEvents(): seq<Event> {
    [Delay(BOOT_DELAY), Show(READY)]
  }

  /** The pre-impulse and the impulse: the relay conducts for `t`, then is
      released and left to settle for the advance. */
  function Pulse(t: int): seq<Event> {
    [Relay(HIGH), Delay(t), Relay(LOW), Delay(ControlPanel.ADVANCE)]
  }

  /** The relay stays released for `t`, then for the advance. */
  function Pause(t: int): seq<Event> {
    [Delay(t), Delay(ControlPanel.ADVANCE)]
  }

  function CoolDown(): seq<Event> {
    [Show(COOLING), Delay(COOL_DOWN), Show(READY)]
  }

  /** One iteration of the sequencer loop with the relay timings it reads. */
  function Cycle(timings: seq<int>): seq<Event>
    requires |timings| == ControlPanel.VALUE_COUNT
  {
    [Show(ZAPP)] + Pulse(timings[0]) + Pause(timings[1]) + Pulse(timings[2]) + CoolDown()
  }

  /** The relay level and the status, as far as a trace has set them. */
  datatype Output = Output(relay: Level, status: Status)

  function Apply(e: Event, o: Output): Output {
    match e
    case Relay(l) => o.(relay := l)
    case Delay(_) => o
    case Show(s) => o.(status := s)
  }

  function After(ev: seq<Event>, o: Output): Output
    decreases |ev|
  {
    if ev == [] then o else After(ev[1..], Apply(ev[0], o))
  }

  /** The time a trace spends in delays. */
  function Elapsed(ev: seq<Event>): int
    decreases |ev|
  {
    if ev == [] then 0
    else (if ev[0].Delay? then ev[0].ms else 0) + Elapsed(ev[1..])
  }

  /** The delays spent with the relay conducting, in order. */
  function OnTimes(ev: seq<Event>, o: Output): seq<int>
    decreases |ev|
  {
    if ev == [] then []
    else (if ev[0].Delay? && o.relay == HIGH then [ev[0].ms] else []) + OnTimes(ev[1..], Apply(ev[0], o))
  }

  /** The statuses a trace shows, in order. */
  function Statuses(ev: seq<Event>): seq<Status>
    decreases |ev|
  {
    if ev == [] then []
    else (if ev[0].Show? then [ev[0].status] else []) + Statuses(ev[1..])
  }

  /** The relay never conducts through a delay unless the status is ZAPP. */
  predicate ConductsOnlyInZapp(ev: seq<Event>, o: Output)
    decreases |ev|
  {
    ev == [] ||
    ((ev[0].Delay? && o.relay == HIGH ==> o.status == ZAPP) && ConductsOnlyInZapp(ev[1..], Apply(ev[0], o)))
  }

  // Replaying a concatenation is replaying its parts one after the other.

  lemma {:induction false} AfterAppend(a: seq<Event>, b: seq<Event>, o: Output)
    ensures After(a + b, o) == After(b, After(a, o))
    decreases |a|
  {
    if a == [] {
      assert a + b == b;
    } else {
      assert (a + b)[1..] == a[1..] + b;
      AfterAppend(a[1..], b, Apply(a[0], o));
    }
  }

  lemma {:induction false} ElapsedAppend(a: seq<Event>, b: seq<Event>)
    ensures Elapsed(a + b) == Elapsed(a) + Elapsed(b)
    decreases |a|
  {
    if a == [] {
      assert a + b == b;
    } else {
      assert (a + b)[1..] == a[1..] + b;
      ElapsedAppend(a[1..], b);
    }
  }

  lemma {:induction false} OnTimesAppend(a: seq<Event>, b: seq<Event>, o: Output)
    ensures OnTimes(a + b, o) == OnTimes(a, o) + OnTimes(b, After(a, o))
    decreases |a|
  {
    if a == [] {
      assert a + b == b;
    } else {
      assert (a + b)[1..] == a[1..] + b;
      OnTimesAppend(a[1..], b, Apply(a[0], o));
      var h := if a[0].Delay? && o.relay == HIGH then [a[0].ms] else [];
      var o1 := Apply(a[0], o);
      assert OnTimes(a + b, o) == h + OnTimes(a[1..] + b, o1);
      assert h + (OnTimes(a[1..], o1) + OnTimes(b, After(a[1..], o1)))
          == (h + OnTimes(a[1..], o1)) + OnTimes(b, After(a[1..], o1));
    }
  }

  lemma {:induction false} StatusesAppend(a: seq<Event>, b: seq<Event>)
    ensures Statuses(a + b) == Statuses(a) + Statuses(b)
    decreases |a|
  {
    if a == [] {
      assert a + b == b;
    } else {
      assert (a + b)[1..] == a[1..] + b;
      StatusesAppend(a[1..], b);
      var h := if a[0].Show? then [a[0].status] else [];
      assert Statuses(a + b) == h + Statuses(a[1..] + b);
      assert h + (Statuses(a[1..]) + Statuses(b)) == (h + Statuses(a[1..])) + Statuses(b);
    }
  }

  lemma {:induction false} ConductsAppend(a: seq<Event>, b: seq<Event>, o: Output)
    ensures ConductsOnlyInZapp(a + b, o) <==> ConductsOnlyInZapp(a, o) && ConductsOnlyInZapp(b, After(a, o))
    decreases |a|
  {
    if a == [] {
      assert a + b == b;
    } else {
      assert (a + b)[1..] == a[1..] + b;
      ConductsAppend(a[1..], b, Apply(a[0], o));
    }
  }

  lemma ReplayAppend(a: seq<Event>, b: seq<Event>, o: Output)
    ensures After(a + b, o) == After(b, After(a, o))
    ensures Elapsed(a + b) == Elapsed(a) + Elapsed(b)
    ensures OnTimes(a + b, o) == OnTimes(a, o) + OnTimes(b, After(a, o))
    ensures Statuses(a + b) == Statuses(a) + Statuses(b)
    ensures ConductsOnlyInZapp(a + b, o) <==> ConductsOnlyInZapp(a, o) && ConductsOnlyInZapp(b, After(a, o))
  {
    AfterAppend(a, b, o);
    ElapsedAppend(a, b);
    OnTimesAppend(a, b, o);
    StatusesAppend(a, b);
    ConductsAppend(a, b, o);
  }

  /** Replaying a single event. */
  lemma ReplayOne(e: Event, o: Output)
    ensures After([e], o) == Apply(e, o)
    ensures Elapsed([e]) == (if e.Delay? then e.ms else 0)
    ensures OnTimes([e], o) == (if e.Delay? && o.relay == HIGH then [e.ms] else [])
    ensures Statuses([e]) == (if e.Show? then [e.status] else [])
    ensures ConductsOnlyInZapp([e], o) <==> (e.Delay? && o.relay == HIGH ==> o.status == ZAPP)
  {
    assert [e][1..] == [];
  }

  /** A pulse (pre-impulse or impulse) from any relay level, in status ZAPP:
      the relay conducts exactly for `t`, ends LOW, and takes `t + ADVANCE`. */
  lemma PulseReplay(t: int, o: Output)
    requires o.status == ZAPP
    ensures After(Pulse(t), o) == Output(LOW, ZAPP)
    ensures Elapsed(Pulse(t)) == t + ControlPanel.ADVANCE
    ensures OnTimes(Pulse(t), o) == [t]
    ensures Statuses(Pulse(t)) == []
    ensures ConductsOnlyInZapp(Pulse(t), o)
  {
    var e0, e1, e2, e3 := Relay(HIGH), Delay(t), Relay(LOW), Delay(ControlPanel.ADVANCE);
    assert Pulse(t) == [e0] + [e1] + [e2] + [e3];
    var o1 := Apply(e0, o);
    var o2 := Apply(e1, o1);
    var o3 := Apply(e2, o2);
    ReplayOne(e0, o); ReplayOne(e1, o1); ReplayOne(e2, o2); ReplayOne(e3, o3);
    ReplayAppend([e0], [e1], o);
    ReplayAppend([e0] + [e1], [e2], o);
    ReplayAppend([e0] + [e1] + [e2], [e3], o);
  }

  /** The pause phase from a LOW relay: no conduction, `t + ADVANCE` long. */
  lemma PauseReplay(t: int, o: Output)
    requires o.relay == LOW
    ensures After(Pause(t), o) == o
    ensures Elapsed(Pause(t)) == t + ControlPanel.ADVANCE
    ensures OnTimes(Pause(t), o) == []
    ensures Statuses(Pause(t)) == []
    ensures ConductsOnlyInZapp(Pause(t), o)
  {
    var e0, e1 := Delay(t), Delay(ControlPanel.ADVANCE);
    assert Pause(t) == [e0] + [e1];
    ReplayOne(e0, o); ReplayOne(e1, o);
    ReplayAppend([e0], [e1], o);
  }

  /** The cool-down from a LOW relay: no conduction, COOLING then READY. */
  lemma CoolDownReplay(o: Output)
    requires o.relay == LOW
    ensures After(CoolDown(), o) == Output(LOW, READY)
    ensures Elapsed(CoolDown()) == COOL_DOWN
    ensures OnTimes(CoolDown(), o) == []
    ensures Statuses(CoolDown()) == [COOLING, READY]
    ensures ConductsOnlyInZapp(CoolDown(), o)
  {
    var e0, e1, e2 := Show(COOLING), Delay(COOL_DOWN), Show(READY);
    assert CoolDown() == [e0] + [e1] + [e2];
    var o1 := Apply(e0, o);
    ReplayOne(e0, o); ReplayOne(e1, o1); ReplayOne(e2, o1);
    ReplayAppend([e0], [e1], o);
    ReplayAppend([e0] + [e1], [e2], o);
  }

  /** One weld cycle, from any relay level and status: the relay conducts
      exactly twice, for the pre-impulse timing and then the impulse timing,
      only while the status is ZAPP, and ends LOW; the statuses shown are
      ZAPP, COOLING, READY; the delays add up to the three timings, three
      advances and the cool-down. */
  lemma CycleReplay(timings: seq<int>, o: Output)
    requires |timings| == ControlPanel.VALUE_COUNT
    ensures After(Cycle(timings), o) == Output(LOW, READY)
    ensures OnTimes(Cycle(timings), o) == [timings[0], timings[2]]
    ensures Statuses(Cycle(timings)) == [ZAPP, COOLING, READY]
    ensures Elapsed(Cycle(timings)) ==
              timings[0] + timings[1] + timings[2] + 3 * ControlPanel.ADVANCE + COOL_DOWN
    ensures ConductsOnlyInZapp(Cycle(timings), o)
  {
    var z := [Show(ZAPP)];
    var pre, pause, imp, cool := Pulse(timings[0]), Pause(timings[1]), Pulse(timings[2]), CoolDown();
    var oz := Output(o.relay, ZAPP);
    var low := Output(LOW, ZAPP);
    ReplayOne(Show(ZAPP), o);
    PulseReplay(timings[0], oz);
    PauseReplay(timings[1], low);
    PulseReplay(timings[2], low);
    CoolDownReplay(low);
    ReplayAppend(z, pre, o);
    ReplayAppend(z + pre, pause, o);
    ReplayAppend(z + pre + pause, imp, o);
    ReplayAppend(z + pre + pause + imp, cool, o);
  }

  /** The boot prelude keeps the relay as it is and shows READY. */
  lemma BootReplay(o: Output)
    ensures After(BootEvents(), o) == o.(status := READY)
    ensures Elapsed(BootEvents()) == BOOT_DELAY
    ensures OnTimes(BootEvents(), o) == (if o.relay == HIGH then [BOOT_DELAY] else [])
    ensures Statuses(BootEvents()) == [READY]
    ensures ConductsOnlyInZapp(BootEvents(), o) <==> (o.relay == HIGH ==> o.status == ZAPP)
  {
    var e0, e1 := Delay(BOOT_DELAY), Show(READY);
    assert BootEvents() == [e0] + [e1];
    ReplayOne(e0, o); ReplayOne(e1, o);
    ReplayAppend([e0], [e1], o);
  }

  /** The sequencer task from power-up: the prelude, then `n` loop
      iterations, each reading the same timings. */
  function Program(timings: seq<int>, n: nat): seq<Event>
    requires |timings| == ControlPanel.VALUE_COUNT
  {
    if n == 0 then BootEvents() else Program(timings, n - 1) + Cycle(timings)
  }

  /** After the prelude and `n` cycles with unchanged timings, the relay is
      LOW, the status READY, the relay has conducted `2 n` times (alternately
      for the pre-impulse and impulse timings) and never outside ZAPP, and the
      time taken is the boot delay plus `n` cycle lengths. */
  lemma {:induction false} ProgramReplay(timings: seq<int>, n: nat)
    requires |timings| == ControlPanel.VALUE_COUNT
    ensures var ev := Program(timings, n); var start := Output(LOW, BOOTING);
      && After(ev, start) == Output(LOW, READY)
      && ConductsOnlyInZapp(ev, start)
      && |OnTimes(ev, start)| == 2 * n
      && (forall j :: 0 <= j < 2 * n ==>
            OnTimes(ev, start)[j] == if j % 2 == 0 then timings[0] else timings[2])
      && Elapsed(ev) == BOOT_DELAY + n * (timings[0] + timings[1] + timings[2] + 3 * ControlPanel.ADVANCE + COOL_DOWN)
    decreases n
  {
    var start := Output(LOW, BOOTING);
    if n == 0 {
      BootReplay(start);
    } else {
      var prev := Program(timings, n - 1);
      ProgramReplay(timings, n - 1);
      CycleReplay(timings, After(prev, start));
      ReplayAppend(prev, Cycle(timings), start);
      var len := timings[0] + timings[1] + timings[2] + 3 * ControlPanel.ADVANCE + COOL_DOWN;
      assert n * len == (n - 1) * len + len;
      var on := OnTimes(Program(timings, n), start);
      assert on == OnTimes(prev, start) + [timings[0], timings[2]];
      forall j | 0 <= j < 2 * n
        ensures on[j] == if j % 2 == 0 then timings[0] else timings[2]
      {
        if j < 2 * (n - 1) {
          assert on[j] == OnTimes(prev, start)[j];
        } else if j == 2 * (n - 1) {
          assert j % 2 == 0;
        } else {
          assert j == 2 * (n - 1) + 1 && j % 2 == 1;
        }
      }
    }
  }
}
