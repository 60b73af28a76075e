/**
 A run of the main loop in which a second person enters while the first one's sweep is
 running: the strip stays divided although all sweeps have ended.
 */
module RestartExample {
  import opened Leds
  import opened Sweeps
  import opened Stairway
  import opened StairwayLights

  const TWO_LEDS: Config := Config(2, false, 0, 0)
  const OPTIONS: Settings := Settings(false, 0, 1000, 10, TWO_LEDS)
  const REST: Sweep := Sweep(false, 0, 0)

  /** An iteration that takes no time. */
  function At(t: nat, sensed: Sensors): Input {
    Input(false, sensed, [false, false, false, false], t, [t, t], [t, t], [t, t], t, t)
  }

  function Between(up: Detector, down: Detector, people: int, peopleTs: nat, lastUp: bool, tickTs: nat,
                   offUp: Sweep, onDown: Sweep): State
  {
    State([up, down], people, people, peopleTs, false, lastUp, tickTs, [REST, offUp, onDown, REST])
  }

  /** Somebody enters at the bottom, leaves at the top, and somebody else enters at the bottom. */
  const INPUTS: seq<Input> := [
    At(1, [false, false, true, false]), At(2, [false, false, true, true]), At(11, [false, true, false, false]),
    At(12, [true, true, true, false]), At(13, [false, false, true, true]), At(22, [false, false, false, false]),
    At(33, [false, false, false, false]), At(44, [false, false, false, false])]

  const STATES: seq<State> := [
    INITIAL,
    Between(Detector(Resting, 0), Detector(FirstLock, 1), 0, 0, true, 0, REST, REST),
    Between(Detector(Resting, 0), Detector(Inc, 2), 1, 2, false, 0, REST, Sweep(true, 0, 2)),
    Between(Detector(SecondLock, 11), Detector(Resting, 11), 1, 2, false, 11, REST, Sweep(true, 1, 2)),
    Between(Detector(Dec, 12), Detector(FirstLock, 12), 0, 12, false, 11, Sweep(true, 0, 12), Sweep(true, 1, 2)),
    Between(Detector(Resting, 13), Detector(Inc, 13), 1, 13, false, 11, Sweep(true, 0, 12), Sweep(true, 1, 13)),
    Between(Detector(Resting, 13), Detector(Resting, 22), 1, 13, false, 22, Sweep(true, 1, 12), Sweep(true, 2, 13)),
    Between(Detector(Resting, 13), Detector(Resting, 22), 1, 13, false, 33, Sweep(true, 2, 12), Sweep(false, 0, 13)),
    Between(Detector(Resting, 13), Detector(Resting, 22), 1, 13, false, 44, Sweep(false, 0, 12), Sweep(false, 0, 13))]

  /** What each iteration writes. */
  const WRITES: seq<seq<Write>> := [
    [], [], [Write(0, true, 2)], [], [], [Write(0, false, 12), Write(1, true, 13)], [Write(1, false, 12)], []]

  lemma NetOf(n: int)
    ensures Net(n, []) == n && Net(n, [Entered]) == n + 1 && Net(n, [Left]) == if n != 0 then n - 1 else n
  {
    assert [Entered][..0] == [] && [Left][..0] == [];
  }

  lemma OneWrite(k: Kind, s: Sweep, cfg: Config)
    requires s.active && s.cnt < cfg.count && Head(k, cfg) <= s.cnt
    ensures Advance(k, s, cfg) == (s.(cnt := s.cnt + 1), [Write(IndexOf(k, s.cnt, cfg.count), k.IsOn(), s.ts)])
  {
    assert Writes(k, s.ts, s.cnt, s.cnt + 1, cfg) == [Write(IndexOf(k, s.cnt, cfg.count), k.IsOn(), s.ts)];
  }

  lemma TicksOf(offUp: Sweep, onDown: Sweep)
    ensures var r := TickAll([REST, offUp, onDown, REST], TWO_LEDS);
            r.0 == [REST, Advance(OffUp, offUp, TWO_LEDS).0, Advance(OnDown, onDown, TWO_LEDS).0, REST]
            && r.1 == Advance(OffUp, offUp, TWO_LEDS).1 + Advance(OnDown, onDown, TWO_LEDS).1
  {
  }

  ghost predicate Follows(n: nat) {
    n < 8 && Step(STATES[n], INPUTS[n], OPTIONS) == STATES[n + 1]
        && StepWrites(STATES[n], INPUTS[n], OPTIONS) == WRITES[n]
  }

  /** The first person enters, and the tick lights the first LED. */
  lemma Entering()
    ensures Follows(0) && Follows(1)
  {
    NetOf(0);
    assert Crossings(STATES[0], INPUTS[0], OPTIONS) == [];
    assert Step(STATES[0], INPUTS[0], OPTIONS) == STATES[1];
    assert Crossings(STATES[1], INPUTS[1], OPTIONS) == [Entered];
    assert Step(STATES[1], INPUTS[1], OPTIONS) == STATES[2];
  }

  lemma FirstTick()
    ensures Follows(2)
  {
    NetOf(1);
    assert Crossings(STATES[2], INPUTS[2], OPTIONS) == [];
    TicksOf(REST, Sweep(true, 0, 2));
    OneWrite(OnDown, Sweep(true, 0, 2), TWO_LEDS);
    assert [] + [Write(0, true, 2)] == [Write(0, true, 2)];
    assert Step(STATES[2], INPUTS[2], OPTIONS) == STATES[3];
  }

  /** The first person leaves and the second one enters between two ticks. */
  lemma LeavingAndEntering()
    ensures Follows(3) && Follows(4)
  {
    NetOf(1);
    NetOf(0);
    assert Crossings(STATES[3], INPUTS[3], OPTIONS) == [Left];
    assert Step(STATES[3], INPUTS[3], OPTIONS) == STATES[4];
    assert Crossings(STATES[4], INPUTS[4], OPTIONS) == [Entered];
    assert Step(STATES[4], INPUTS[4], OPTIONS) == STATES[5];
  }

  /** Both sweeps write an LED each: one goes out and the other one on. */
  lemma SecondTick()
    ensures Follows(5)
  {
    NetOf(1);
    assert Crossings(STATES[5], INPUTS[5], OPTIONS) == [];
    TicksOf(Sweep(true, 0, 12), Sweep(true, 1, 13));
    OneWrite(OffUp, Sweep(true, 0, 12), TWO_LEDS);
    OneWrite(OnDown, Sweep(true, 1, 13), TWO_LEDS);
    assert [Write(0, false, 12)] + [Write(1, true, 13)] == [Write(0, false, 12), Write(1, true, 13)];
    assert Step(STATES[5], INPUTS[5], OPTIONS) == STATES[6];
  }

  lemma ThirdTick()
    ensures Follows(6)
  {
    NetOf(1);
    assert Crossings(STATES[6], INPUTS[6], OPTIONS) == [];
    TicksOf(Sweep(true, 1, 12), Sweep(true, 2, 13));
    OneWrite(OffUp, Sweep(true, 1, 12), TWO_LEDS);
    assert [Write(1, false, 12)] + [] == [Write(1, false, 12)];
    assert Step(STATES[6], INPUTS[6], OPTIONS) == STATES[7];
  }

  lemma LastTick()
    ensures Follows(7)
  {
    NetOf(1);
    assert Crossings(STATES[7], INPUTS[7], OPTIONS) == [];
    TicksOf(Sweep(true, 2, 12), Sweep(false, 0, 13));
    assert Step(STATES[7], INPUTS[7], OPTIONS) == STATES[8];
  }

  lemma ExampleRuns()
    ensures IsRun(STATES, INPUTS, OPTIONS)
    ensures forall n: nat :: n < 8 ==> Follows(n)
  {
    hide Step, StepWrites;
    Entering();
    FirstTick();
    LeavingAndEntering();
    SecondTick();
    ThirdTick();
    LastTick();
    forall n: nat | n < 8 ensures Follows(n) {
      assert n in {0, 1, 2, 3, 4, 5, 6, 7};
    }
    forall n: nat | n < |INPUTS| ensures StepsTo(STATES, INPUTS, OPTIONS, n) {
      assert Follows(n);
      InTime(n);
    }
  }

  lemma InTime(n: nat)
    requires n < 8
    ensures Ordered(INPUTS[n], EndBefore(INPUTS, n))
  {
  }

  lemma WritesSoFar(n: nat)
    requires n < 8 && Follows(n)
    ensures RunWrites(STATES, INPUTS, OPTIONS, n + 1) == RunWrites(STATES, INPUTS, OPTIONS, n) + WRITES[n]
  {
  }

  lemma NoWritesYet()
    ensures RunWrites(STATES, INPUTS, OPTIONS, 0) == []
  {
  }

  lemma FirstWrites()
    ensures RunWrites(STATES, INPUTS, OPTIONS, 4) == [Write(0, true, 2)]
  {
    hide RunWrites, Follows, IsRun;
    ExampleRuns();
    NoWritesYet();
    WritesSoFar(0);
    WritesSoFar(1);
    WritesSoFar(2);
    WritesSoFar(3);
  }

  lemma AllWrites()
    ensures RunWrites(STATES, INPUTS, OPTIONS, 8) ==
            [Write(0, true, 2), Write(0, false, 12), Write(1, true, 13), Write(1, false, 12)]
  {
    hide RunWrites, Follows, IsRun;
    ExampleRuns();
    FirstWrites();
    WritesSoFar(4);
    WritesSoFar(5);
    WritesSoFar(6);
    WritesSoFar(7);
  }

  lemma Divided(all: seq<Write>)
    requires all == [Write(0, true, 2), Write(0, false, 12), Write(1, true, 13), Write(1, false, 12)]
    ensures After(Led(0, false, 0), all, 0) == Led(0, false, 12) && After(Led(0, false, 0), all, 1) == Led(0, true, 13)
  {
    NewestWins(Led(0, false, 0), all, 0);
    NewestWins(Led(0, false, 0), all, 1);
    assert all[1] in all && all[2] in all;
  }

  /**
   All sweeps have ended and somebody is on the stairs, but the lower LED is dark and the upper
   one lit: the second entry renewed the running sweep's time without its counter.
   */
  lemma RestartSplitsStrip()
    ensures IsRun(STATES, INPUTS, OPTIONS) && Idle(STATES[8].sweeps) && STATES[8].people == 1
    ensures var ws := RunWrites(STATES, INPUTS, OPTIONS, 8);
            After(Led(0, false, 0), ws, 0) == Led(0, false, 12) && After(Led(0, false, 0), ws, 1) == Led(0, true, 13)
  {
    hide RunWrites, Follows, IsRun, After;
    ExampleRuns();
    AllWrites();
    Divided(RunWrites(STATES, INPUTS, OPTIONS, 8));
  }
}
