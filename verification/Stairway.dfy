/**
 The main loop of the controller: two crossing detectors, the number of people on the
 stairs, the block by daylight, the timeout and the sweeps they start. One iteration is one
 step; the clock may advance between its readings within an iteration.
 */
module Stairway {
  import opened Leds
  import opened Sweeps

  datatype DetectorState = Resting | FirstLock | SecondLock | Inc | Dec

  datatype Detector = Detector(state: DetectorState, ts: nat)

  type Detectors = s: seq<Detector> | |s| == 2 witness [Detector(Resting, 0), Detector(Resting, 0)]
  type Times = s: seq<nat> | |s| == 2 witness [0, 0]
  type Sensors = s: seq<bool> | |s| == 4 witness [false, false, false, false]

  datatype Settings = Settings(useLight: bool, debounce: nat, offTimeout: nat, interval: nat, cfg: Config)

  /**
   What one iteration reads: sensors in the order up-first, up-second, down-first, down-second,
   and the clock at the start, at each detector's debounce check and stamp, at the triggers of
   the upper and the lower detector's sweep, at the timeout's check and at its trigger.
   */
  datatype Input = Input(light: bool, sensed: Sensors, error: Sensors, start: nat,
                         check: Times, stamp: Times, trigger: Times, over: nat, end: nat)

  datatype State = State(det: Detectors, people: int, prev: int, peopleTs: nat, block: bool, lastUp: bool,
                         tickTs: nat, sweeps: Four)

  const INITIAL: State :=
    State([Detector(Resting, 0), Detector(Resting, 0)], 0, 0, 0, false, true, 0,
          [Sweep(false, 0, 0), Sweep(false, 0, 0), Sweep(false, 0, 0), Sweep(false, 0, 0)])

  /** The clock readings of an iteration come in order, none before `now`. */
  predicate Ordered(i: Input, now: nat) {
    && now <= i.start <= i.check[0] <= i.stamp[0] <= i.check[1] <= i.stamp[1]
    && i.stamp[1] <= i.trigger[0] <= i.trigger[1] <= i.over <= i.end
  }

  /** Every recorded time lies in the past. */
  predicate Past(s: State, now: nat) {
    s.det[0].ts <= now && s.det[1].ts <= now && s.peopleTs <= now && s.tickTs <= now
  }

  function Current(i: Input, n: nat): bool
    requires n < 4
  {
    !i.error[n] && i.sensed[n]
  }

  function Block(s: State, i: Input, opts: Settings): bool {
    i.light && opts.useLight && (s.people == 0 || s.block)
  }

  /** The detector's switch on its two sensors. */
  function Detect(d: Detector, first: bool, second: bool, check: nat, stamp: nat, debounce: nat): Detector {
    match d.state
    case Resting =>
      if first then Detector(FirstLock, stamp) else if second then Detector(SecondLock, stamp) else d
    case FirstLock =>
      if !first && check - d.ts > debounce then Detector(Resting, stamp)
      else if second then Detector(Inc, stamp) else d
    case SecondLock =>
      if !second && check - d.ts > debounce then Detector(Resting, stamp)
      else if first then Detector(Dec, stamp) else d
    case Inc => if !first && !second && check - d.ts > debounce then Detector(Resting, stamp) else d
    case Dec => if !first && !second && check - d.ts > debounce then Detector(Resting, stamp) else d
  }

  /** Detector `n` after the iteration: reset by the daylight block, frozen while one of its sensors is faulty. */
  function NextDetector(s: State, i: Input, opts: Settings, n: nat): Detector
    requires n < 2
  {
    if Block(s, i, opts) then Detector(Resting, i.stamp[n])
    else if i.error[2 * n] || i.error[2 * n + 1] then s.det[n]
    else Detect(s.det[n], Current(i, 2 * n), Current(i, 2 * n + 1), i.check[n], i.stamp[n], opts.debounce)
  }

  /** A crossing: somebody entered the stairs or left them. */
  datatype Crossing = Entered | Left

  function CrossingOf(before: Detector, after: Detector): seq<Crossing> {
    if before.state == after.state then []
    else if after.state == Inc then [Entered]
    else if after.state == Dec then [Left]
    else []
  }

  lemma CrossingKinds(before: Detector, after: Detector)
    ensures CrossingOf(before, after) in {[], [Entered], [Left]}
  {
  }

  /** The crossings seen in an iteration, the upper detector's first. */
  function Crossings(s: State, i: Input, opts: Settings): seq<Crossing>
  {
    CrossingOf(s.det[0], NextDetector(s, i, opts, 0)) + CrossingOf(s.det[1], NextDetector(s, i, opts, 1))
  }

  /** People on the stairs after some crossings: leaving counts only while somebody is there. */
  function Net(n: int, cs: seq<Crossing>): int {
    if cs == [] then n
    else
      var m := Net(n, cs[..|cs| - 1]);
      if cs[|cs| - 1].Entered? then m + 1 else if m != 0 then m - 1 else m
  }

  /** The time of the last counted crossing of an iteration, or `ts`. */
  function LastCounted(s: State, i: Input, opts: Settings): nat
  {
    var a := CrossingOf(s.det[0], NextDetector(s, i, opts, 0));
    var b := CrossingOf(s.det[1], NextDetector(s, i, opts, 1));
    if b != [] && (b == [Entered] || Net(s.people, a) != 0) then i.stamp[1]
    else if a != [] && (a == [Entered] || s.people != 0) then i.stamp[0]
    else s.peopleTs
  }

  /** The sweeps after the detectors: an increase starts on-sweeps, emptying the stairs starts off-sweeps. */
  function Starts(sw: Four, up: DetectorState, down: DetectorState, people: int, prev: int, at: Times,
      cfg: Config): Four {
    if people > prev then
      var a: Four := if up == Inc then sw[OnUp.No() := Trigger(sw[OnUp.No()], at[0], cfg)] else sw;
      if down == Inc then a[OnDown.No() := Trigger(a[OnDown.No()], at[1], cfg)] else a
    else if people < prev && people == 0 then
      var a: Four := if up == Dec then sw[OffUp.No() := Trigger(sw[OffUp.No()], at[0], cfg)] else sw;
      if down == Dec then a[OffDown.No() := Trigger(a[OffDown.No()], at[1], cfg)] else a
    else sw
  }

  predicate AnyActive(sw: Four) {
    sw[0].active || sw[1].active || sw[2].active || sw[3].active
  }

  /** The state after the detectors and the sweeps they start. */
  function Counted(s: State, i: Input, opts: Settings): State
  {
    var d0, d1 := NextDetector(s, i, opts, 0), NextDetector(s, i, opts, 1);
    var people := Net(s.people, Crossings(s, i, opts));
    State([d0, d1], people, people, LastCounted(s, i, opts), Block(s, i, opts),
          if people > s.prev && d1.state == Inc then false
          else if people > s.prev && d0.state == Inc then true else s.lastUp,
          s.tickTs, Starts(s.sweeps, d0.state, d1.state, people, s.prev, i.trigger, opts.cfg))
  }

  predicate TimedOut(s: State, i: Input, opts: Settings) {
    s.people > 0 && !AnyActive(s.sweeps) && i.over - s.peopleTs > opts.offTimeout
  }

  /** The timeout empties the stairs and switches the LEDs off in the direction of the last entry. */
  function Timeout(s: State, i: Input, opts: Settings): State {
    if !TimedOut(s, i, opts) then s
    else
      var k := if s.lastUp then OffDown else OffUp;
      s.(people := 0, prev := 0, sweeps := s.sweeps[k.No() := s.sweeps[k.No()].(active := true, ts := i.end)])
  }

  predicate TickDue(s: State, i: Input, opts: Settings) {
    i.start - s.tickTs > opts.interval
  }

  function Ticked(s: State, i: Input, opts: Settings): State
    requires opts.cfg.count > 0
  {
    if TickDue(s, i, opts) then s.(tickTs := i.start, sweeps := TickAll(s.sweeps, opts.cfg).0) else s
  }

  function TickWrites(s: State, i: Input, opts: Settings): seq<Write>
    requires opts.cfg.count > 0
  {
    if TickDue(s, i, opts) then TickAll(s.sweeps, opts.cfg).1 else []
  }

  function Step(s: State, i: Input, opts: Settings): (s': State)
    requires opts.cfg.count > 0
  {
    Ticked(Timeout(Counted(s, i, opts), i, opts), i, opts)
  }

  /** What the iteration writes to the LED strip. */
  function StepWrites(s: State, i: Input, opts: Settings): seq<Write>
    requires opts.cfg.count > 0
  {
    TickWrites(Timeout(Counted(s, i, opts), i, opts), i, opts)
  }

  // ----- one iteration -----

  lemma {:induction false} NetConcat(n: int, a: seq<Crossing>, b: seq<Crossing>)
    ensures Net(n, a + b) == Net(Net(n, a), b)
  {
    if b == [] {
      assert a + b == a;
    } else {
      assert (a + b)[..|a + b| - 1] == a + b[..|b| - 1];
      NetConcat(n, a, b[..|b| - 1]);
    }
  }

  lemma {:induction false} NetNonNegative(n: int, cs: seq<Crossing>)
    requires n >= 0
    ensures Net(n, cs) >= 0
  {
    if cs != [] {
      NetNonNegative(n, cs[..|cs| - 1]);
    }
  }

  lemma DetectorStays(s: State, i: Input, opts: Settings, n: nat)
    requires opts.cfg.count > 0 && n < 2
    ensures Step(s, i, opts).det[n] == NextDetector(s, i, opts, n)
    ensures Step(s, i, opts).block == Block(s, i, opts)
  {
  }

  lemma DetectorTime(s: State, i: Input, opts: Settings, n: nat)
    requires n < 2
    ensures NextDetector(s, i, opts, n).ts in {s.det[n].ts, i.stamp[n]}
  {
  }

  lemma OtherTimes(s: State, i: Input, opts: Settings)
    requires opts.cfg.count > 0
    ensures Step(s, i, opts).peopleTs == LastCounted(s, i, opts)
    ensures Step(s, i, opts).tickTs in {s.tickTs, i.start}
  {
  }

  lemma CountedTime(s: State, i: Input, opts: Settings)
    ensures LastCounted(s, i, opts) in {s.peopleTs, i.stamp[0], i.stamp[1]}
  {
  }

  lemma StepTimes(s: State, i: Input, opts: Settings, now: nat)
    requires opts.cfg.count > 0 && Past(s, now) && Ordered(i, now)
    ensures Past(Step(s, i, opts), i.end)
  {
    DetectorStays(s, i, opts, 0);
    DetectorStays(s, i, opts, 1);
    DetectorTime(s, i, opts, 0);
    DetectorTime(s, i, opts, 1);
    OtherTimes(s, i, opts);
    CountedTime(s, i, opts);
  }

  /** What holds between iterations. */
  ghost predicate Settled(s: State) {
    s.people >= 0 && s.prev == s.people
    && (s.block ==> s.people == 0 && s.det[0].state == Resting && s.det[1].state == Resting)
  }

  lemma StepSettles(s: State, i: Input, opts: Settings)
    requires opts.cfg.count > 0 && Settled(s)
    ensures var s' := Step(s, i, opts);
            && Settled(s')
            && s'.people == if TimedOut(Counted(s, i, opts), i, opts) then 0 else Net(s.people, Crossings(s, i, opts))
  {
    NetNonNegative(s.people, Crossings(s, i, opts));
    DetectorStays(s, i, opts, 0);
    DetectorStays(s, i, opts, 1);
    if Block(s, i, opts) {
      assert Crossings(s, i, opts) == [];
    }
  }

  ghost predicate ValidFour(sw: Four, cfg: Config) {
    forall k: Kind :: ValidSweep(sw[k.No()], cfg)
  }

  lemma StartsStayValid(sw: Four, up: DetectorState, down: DetectorState, people: int, prev: int, at: Times,
      cfg: Config)
    requires ValidFour(sw, cfg)
    ensures ValidFour(Starts(sw, up, down, people, prev, at, cfg), cfg)
  {
  }

  lemma TicksStayValid(sw: Four, cfg: Config)
    requires ValidFour(sw, cfg) && cfg.count > 0
    ensures ValidFour(TickAll(sw, cfg).0, cfg)
  {
    forall k: Kind ensures ValidSweep(TickAll(sw, cfg).0[k.No()], cfg) {
      TickAt(sw, k, cfg);
      SweepStaysValid(k, sw[k.No()], 0, cfg);
    }
  }

  lemma TimeoutStaysValid(s: State, i: Input, opts: Settings)
    requires ValidFour(s.sweeps, opts.cfg)
    ensures ValidFour(Timeout(s, i, opts).sweeps, opts.cfg)
  {
  }

  lemma SweepsStayValid(s: State, i: Input, opts: Settings)
    requires opts.cfg.count > 0 && ValidFour(s.sweeps, opts.cfg)
    ensures ValidFour(Step(s, i, opts).sweeps, opts.cfg)
  {
    var c := Counted(s, i, opts);
    StartsStayValid(s.sweeps, c.det[0].state, c.det[1].state, c.people, s.prev, i.trigger, opts.cfg);
    TimeoutStaysValid(c, i, opts);
    TicksStayValid(Timeout(c, i, opts).sweeps, opts.cfg);
  }

  // ----- runs -----

  /** The last clock reading before iteration `n`. */
  function EndBefore(inputs: seq<Input>, n: nat): nat
    requires n <= |inputs|
  {
    if n == 0 then 0 else inputs[n - 1].end
  }

  ghost predicate StepsTo(tr: seq<State>, inputs: seq<Input>, opts: Settings, n: nat)
    requires opts.cfg.count > 0 && n < |inputs| && |tr| == |inputs| + 1
  {
    Ordered(inputs[n], EndBefore(inputs, n)) && tr[n + 1] == Step(tr[n], inputs[n], opts)
  }

  /** The states before and after each iteration of a run since power-up. */
  ghost predicate IsRun(tr: seq<State>, inputs: seq<Input>, opts: Settings) {
    && opts.cfg.count > 0 && |tr| == |inputs| + 1 && tr[0] == INITIAL
    && forall n: nat :: n < |inputs| ==> StepsTo(tr, inputs, opts, n)
  }

  predicate Resets(s: State, i: Input, opts: Settings) {
    TimedOut(Counted(s, i, opts), i, opts)
  }

  /** The crossings of the first `n` iterations since the last timeout among them. */
  function SinceTimeout(tr: seq<State>, inputs: seq<Input>, opts: Settings, n: nat): seq<Crossing>
    requires opts.cfg.count > 0 && n <= |inputs| && |tr| == |inputs| + 1
  {
    if n == 0 then []
    else if Resets(tr[n - 1], inputs[n - 1], opts) then []
    else SinceTimeout(tr, inputs, opts, n - 1) + Crossings(tr[n - 1], inputs[n - 1], opts)
  }

  ghost predicate Sound(s: State, now: nat, cfg: Config) {
    Settled(s) && Past(s, now) && ValidFour(s.sweeps, cfg)
  }

  lemma IterationIsSound(tr: seq<State>, inputs: seq<Input>, opts: Settings, n: nat)
    requires IsRun(tr, inputs, opts) && n < |inputs| && Sound(tr[n], EndBefore(inputs, n), opts.cfg)
    ensures Sound(tr[n + 1], inputs[n].end, opts.cfg)
    ensures tr[n + 1].people ==
            if Resets(tr[n], inputs[n], opts) then 0 else Net(tr[n].people, Crossings(tr[n], inputs[n], opts))
  {
    assert StepsTo(tr, inputs, opts, n);
    StepSettles(tr[n], inputs[n], opts);
    StepTimes(tr[n], inputs[n], opts, EndBefore(inputs, n));
    SweepsStayValid(tr[n], inputs[n], opts);
  }

  /**
   Counting over runs: after every iteration the count is the crossings since the last timeout,
   never negative and equal to its remembered value; while daylight blocks the stairs the
   count is zero and both detectors rest; and no sweep counter runs past the last LED.
   */
  lemma {:induction false} CountingOverRuns(tr: seq<State>, inputs: seq<Input>, opts: Settings, n: nat)
    requires IsRun(tr, inputs, opts) && n <= |inputs|
    ensures tr[n].people == Net(0, SinceTimeout(tr, inputs, opts, n)) >= 0 && tr[n].prev == tr[n].people
    ensures tr[n].block ==> tr[n].people == 0 && tr[n].det[0].state == Resting && tr[n].det[1].state == Resting
    ensures Past(tr[n], EndBefore(inputs, n)) && ValidFour(tr[n].sweeps, opts.cfg)
  {
    hide Crossings, Resets;
    if n > 0 {
      CountingOverRuns(tr, inputs, opts, n - 1);
      IterationIsSound(tr, inputs, opts, n - 1);
      NetConcat(0, SinceTimeout(tr, inputs, opts, n - 1), Crossings(tr[n - 1], inputs[n - 1], opts));
    }
  }

  /**
   The iteration finds both sensors of detector `n` clear more than the debounce time after
   `ts`, or daylight blocks.
   */
  ghost predicate ClearsAt(s: State, i: Input, opts: Settings, n: nat, ts: nat)
    requires n < 2
  {
    Block(s, i, opts)
    || (!Current(i, 2 * n) && !Current(i, 2 * n + 1) && !i.error[2 * n] && !i.error[2 * n + 1]
        && i.check[n] - ts > opts.debounce)
  }

  lemma IncStep(s: State, i: Input, opts: Settings, n: nat, ts: nat)
    requires opts.cfg.count > 0 && n < 2
    ensures s.det[n] == Detector(Inc, ts) ==>
              Step(s, i, opts).det[n] == Detector(Inc, ts) || ClearsAt(s, i, opts, n, ts)
    ensures s.det[n].state != Inc && Step(s, i, opts).det[n].state == Inc ==>
              Step(s, i, opts).det[n] == Detector(Inc, i.stamp[n])
  {
    hide Step;
    DetectorStays(s, i, opts, n);
  }

  lemma EntryHolds(tr: seq<State>, inputs: seq<Input>, opts: Settings, m: nat, n: nat, ts: nat)
    requires IsRun(tr, inputs, opts) && m < |inputs| && n < 2
    ensures tr[m].det[n] == Detector(Inc, ts) ==>
              tr[m + 1].det[n] == Detector(Inc, ts) || ClearsAt(tr[m], inputs[m], opts, n, ts)
    ensures Enters(tr, m, n) ==> tr[m + 1].det[n] == Detector(Inc, inputs[m].stamp[n])
  {
    assert StepsTo(tr, inputs, opts, m);
    IncStep(tr[m], inputs[m], opts, n, ts);
  }

  lemma {:induction false} LastBeforeChange(tr: seq<State>, n: nat, a: nat, b: nat) returns (m: nat)
    requires n < 2 && a < b < |tr| && tr[a].det[n] != tr[b].det[n]
    ensures a <= m < b && tr[m].det[n] == tr[a].det[n] && tr[m + 1].det[n] != tr[a].det[n]
    decreases b
  {
    m := b - 1;
    if tr[m].det[n] != tr[a].det[n] {
      m := LastBeforeChange(tr, n, a, m);
    }
  }

  /** Iteration `m` counts somebody entering at detector `n`. */
  ghost predicate Enters(tr: seq<State>, m: nat, n: nat)
    requires m + 1 < |tr| && n < 2
  {
    tr[m].det[n].state != Inc && tr[m + 1].det[n].state == Inc
  }

  /**
   No double counting: between two entries counted at the same detector lies an iteration that
   found both of its sensors clear for more than the debounce time after the first, or blocked.
   */
  lemma EntriesSeparated(tr: seq<State>, inputs: seq<Input>, opts: Settings, a: nat, b: nat, n: nat)
    requires IsRun(tr, inputs, opts) && a < b < |inputs| && n < 2
    requires Enters(tr, a, n) && Enters(tr, b, n)
    ensures exists m :: a < m < b && ClearsAt(tr[m], inputs[m], opts, n, inputs[a].stamp[n])
  {
    EntryHolds(tr, inputs, opts, a, n, 0);
    var m := LastBeforeChange(tr, n, a + 1, b);
    EntryHolds(tr, inputs, opts, m, n, inputs[a].stamp[n]);
  }

  // ----- the loop body -----

  class Controller {
    var det: Detectors
    var people: int
    var prev: int
    var peopleTs: nat
    var block: bool
    var lastUp: bool
    var tickTs: nat
    const lights: Lights
    const settings: Settings

    ghost predicate Valid()
      reads this
    {
      settings.cfg.count > 0
    }

    function View(): State
      reads this, lights
    {
      State(det, people, prev, peopleTs, block, lastUp, tickTs, lights.sweeps)
    }

    constructor (lights: Lights, settings: Settings)
      requires settings.cfg.count > 0
      requires lights.sweeps == INITIAL.sweeps
      ensures Valid() && View() == INITIAL && this.lights == lights && this.settings == settings
    {
      det := [Detector(Resting, 0), Detector(Resting, 0)];
      people, prev, peopleTs, tickTs := 0, 0, 0, 0;
      block, lastUp := false, true;
      this.lights, this.settings := lights, settings;
    }

    /** The block by daylight. */
    method UpdateBlock(i: Input)
      modifies this`block
      ensures block == Block(old(View()), i, settings)
    {
      if i.light && settings.useLight {
        if people == 0 && !block {
          block := true;
        }
      } else if block {
        block := false;
      }
    }

    /** The body of the detector loop. */
    method UpdateDetector(i: Input, n: nat)
      requires Valid() && n < 2
      modifies this`det, this`people, this`peopleTs
      ensures Valid()
      ensures var d := if block then Detector(Resting, i.stamp[n])
                       else if i.error[2 * n] || i.error[2 * n + 1] then old(det[n])
                       else Detect(old(det[n]), Current(i, 2 * n), Current(i, 2 * n + 1), i.check[n], i.stamp[n],
                           settings.debounce);
              var cs := CrossingOf(old(det[n]), d);
              && det == old(det)[n := d]
              && people == Net(old(people), cs)
              && peopleTs == if cs == [Entered] || (cs == [Left] && old(people) != 0) then i.stamp[n] else old(peopleTs)
    {
      var d := det[n];
      if block {
        det := det[n := Detector(Resting, i.stamp[n])];
        return;
      }
      if i.error[2 * n] || i.error[2 * n + 1] {
        return;
      }
      var first, second := Current(i, 2 * n), Current(i, 2 * n + 1);
      match d.state {
        case Resting =>
          if first {
            det := det[n := Detector(FirstLock, i.stamp[n])];
          } else if second {
            det := det[n := Detector(SecondLock, i.stamp[n])];
          }
        case FirstLock =>
          if !first && i.check[n] - d.ts > settings.debounce {
            det := det[n := Detector(Resting, i.stamp[n])];
          } else if second {
            det := det[n := Detector(Inc, i.stamp[n])];
            people := people + 1;
            peopleTs := i.stamp[n];
          }
        case SecondLock =>
          if !second && i.check[n] - d.ts > settings.debounce {
            det := det[n := Detector(Resting, i.stamp[n])];
          } else if first {
            det := det[n := Detector(Dec, i.stamp[n])];
            if people != 0 {
              people := people - 1;
              peopleTs := i.stamp[n];
            }
          }
        case _ =>
          if !first && !second && i.check[n] - d.ts > settings.debounce {
            det := det[n := Detector(Resting, i.stamp[n])];
          }
      }
      assert [Entered][..0] == [] && [Left][..0] == [];
    }

    method StartSweep(k: Kind, now: nat)
      requires lights.sweeps[k.No()].cnt != settings.cfg.count
      modifies lights
      ensures lights.sweeps == old(lights.sweeps)[k.No() := Trigger(old(lights.sweeps[k.No()]), now, settings.cfg)]
    {
      lights.sweeps := lights.sweeps[k.No() := lights.sweeps[k.No()].(active := true, ts := now)];
    }

    /** Starting sweeps after a change of the count. */
    method StartSweeps(at: Times)
      requires Valid()
      modifies this`prev, this`lastUp, lights
      ensures prev == people
      ensures lights.sweeps == Starts(old(lights.sweeps), det[0].state, det[1].state, people, old(prev), at,
              settings.cfg)
      ensures lastUp == if people > old(prev) && det[1].state == Inc then false
                        else if people > old(prev) && det[0].state == Inc then true else old(lastUp)
    {
      if prev != people {
        if people > prev {
          if det[0].state == Inc {
            lastUp := true;
            if lights.sweeps[OnUp.No()].cnt != settings.cfg.count {
              StartSweep(OnUp, at[0]);
            }
          }
          if det[1].state == Inc {
            lastUp := false;
            if lights.sweeps[OnDown.No()].cnt != settings.cfg.count {
              StartSweep(OnDown, at[1]);
            }
          }
        } else {
          if det[0].state == Dec && people == 0 && lights.sweeps[OffUp.No()].cnt != settings.cfg.count {
            StartSweep(OffUp, at[0]);
          }
          if det[1].state == Dec && people == 0 && lights.sweeps[OffDown.No()].cnt != settings.cfg.count {
            StartSweep(OffDown, at[1]);
          }
        }
        prev := people;
      }
    }

    /** The timeout and the periodic tick. */
    method TimeoutAndTick(i: Input)
      requires Valid()
      modifies this`people, this`prev, this`tickTs, lights, lights.strip.buf
      ensures View() == Ticked(Timeout(old(View()), i, settings), i, settings)
      ensures forall j :: 0 <= j < lights.strip.buf.Length ==>
                lights.strip.buf[j] ==
                After(old(lights.strip.buf[j]), TickWrites(Timeout(old(View()), i, settings), i, settings), j)
    {
      ghost var mid := Timeout(View(), i, settings);
      if people > 0 && !AnyActive(lights.sweeps) && i.over - peopleTs > settings.offTimeout {
        prev := 0;
        people := 0;
        var k := if lastUp then OffDown else OffUp;
        lights.sweeps := lights.sweeps[k.No() := lights.sweeps[k.No()].(active := true, ts := i.end)];
      }
      assert View() == mid;
      if i.start - tickTs > settings.interval {
        tickTs := i.start;
        lights.RunTick(settings.cfg);
      }
    }

    /** The detector loop, after the block by daylight has been updated. */
    method UpdateDetectors(i: Input, ghost s: State)
      requires Valid() && View() == s.(block := Block(s, i, settings))
      modifies this`det, this`people, this`peopleTs
      ensures det == [NextDetector(s, i, settings, 0), NextDetector(s, i, settings, 1)]
      ensures people == Net(s.people, Crossings(s, i, settings)) && peopleTs == LastCounted(s, i, settings)
    {
      hide Detect, Current, Net, CrossingOf;
      CrossingKinds(s.det[0], NextDetector(s, i, settings, 0));
      CrossingKinds(s.det[1], NextDetector(s, i, settings, 1));
      UpdateDetector(i, 0);
      UpdateDetector(i, 1);
      NetConcat(s.people, CrossingOf(s.det[0], det[0]), CrossingOf(s.det[1], det[1]));
    }

    /** The detectors and the sweeps they start. */
    method Count(i: Input)
      requires Valid()
      modifies this, lights
      ensures View() == Counted(old(View()), i, settings)
    {
      ghost var s := View();
      UpdateBlock(i);
      UpdateDetectors(i, s);
      StartSweeps(i.trigger);
    }

    /** One iteration of the main loop. */
    method Iterate(i: Input)
      requires Valid()
      modifies this, lights, lights.strip.buf
      ensures Valid() && View() == Step(old(View()), i, settings)
      ensures forall j :: 0 <= j < lights.strip.buf.Length ==>
                lights.strip.buf[j] == After(old(lights.strip.buf[j]), StepWrites(old(View()), i, settings), j)
    {
      Count(i);
      TimeoutAndTick(i);
    }
  }

  // ----- the clock -----

  /** get_time_ms: the milliseconds since boot, accumulated from readings of a 32-bit counter. */
  class Clock {
    var lastRaw: nat
    var total: nat

    constructor ()
      ensures lastRaw == 0 && total == 0
    {
      lastRaw, total := 0, 0;
    }

    lemma Difference(a: nat, b: nat)
      ensures (a % 0x1_0000_0000 - b % 0x1_0000_0000) % 0x1_0000_0000 == (a - b) % 0x1_0000_0000
    {
      var k := a / 0x1_0000_0000 - b / 0x1_0000_0000;
      assert a - b == a % 0x1_0000_0000 - b % 0x1_0000_0000 + k * 0x1_0000_0000;
    }

    /**
     A reading at true time `now` after one at `before` adds the time between them, less the
     whole turns of the counter: read at least once per turn, the total is true for ever, and a
     pause of a turn or more is what it loses.
     */
    method GetTimeMs(ghost before: nat, ghost now: nat, raw: nat) returns (ms: nat)
      requires lastRaw == before % 0x1_0000_0000 && raw == now % 0x1_0000_0000 && before <= now
      modifies this
      ensures ms == total == old(total) + (now - before) % 0x1_0000_0000 && lastRaw == now % 0x1_0000_0000
      ensures old(total) == before ==> (ms == now <==> now - before < 0x1_0000_0000)
    {
      Difference(now, before);
      var delta := (raw - lastRaw) % 0x1_0000_0000;
      total := total + delta;
      lastRaw := raw;
      ms := total;
    }
  }
}
