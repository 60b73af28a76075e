/**
 What the main loop promises, in terms of its inputs and of the states that a run goes
 through: when somebody counts as entering or leaving, how many people are on the stairs, when
 daylight blocks, which sweeps start, and when the timeout comes.
 */
module StairwayLaws {
  import opened Leds
  import opened Sweeps
  import opened Stairway
  import opened StairwayLights

  // ----- the count -----

  /** Detector `d` changes in iteration `m` to the state `to`. */
  ghost predicate Turns(tr: seq<State>, m: nat, d: nat, to: DetectorState)
    requires m + 1 < |tr| && d < 2
  {
    tr[m].det[d].state != to && tr[m + 1].det[d].state == to
  }

  /** People on the stairs in iteration `m` once the upper detector has been looked at. */
  ghost function AfterUp(tr: seq<State>, m: nat): int
    requires m + 1 < |tr|
  {
    if Turns(tr, m, 0, Inc) then tr[m].people + 1
    else if Turns(tr, m, 0, Dec) && tr[m].people > 0 then tr[m].people - 1
    else tr[m].people
  }

  /** People on the stairs in iteration `m` once both detectors have been looked at. */
  ghost function Here(tr: seq<State>, m: nat): int
    requires m + 1 < |tr|
  {
    if Turns(tr, m, 1, Inc) then AfterUp(tr, m) + 1
    else if Turns(tr, m, 1, Dec) && AfterUp(tr, m) > 0 then AfterUp(tr, m) - 1
    else AfterUp(tr, m)
  }

  /** The stamp of the last crossing of the first `n` iterations that changed the count, or the power-up. */
  ghost function LastCrossing(tr: seq<State>, inputs: seq<Input>, n: nat): nat
    requires n <= |inputs| < |tr|
  {
    if n == 0 then 0
    else if Here(tr, n - 1) != AfterUp(tr, n - 1) then inputs[n - 1].stamp[1]
    else if AfterUp(tr, n - 1) != tr[n - 1].people then inputs[n - 1].stamp[0]
    else LastCrossing(tr, inputs, n - 1)
  }

  lemma OneCrossing(n: int, before: Detector, after: Detector)
    requires n >= 0
    ensures var cs := CrossingOf(before, after);
            Net(n, cs) ==
            if before.state != Inc && after.state == Inc then n + 1
            else if before.state != Dec && after.state == Dec && n > 0 then n - 1
            else n
  {
    assert [Entered][..0] == [] && [Left][..0] == [];
  }

  lemma StepCounts(tr: seq<State>, inputs: seq<Input>, opts: Settings, n: nat)
    requires IsRun(tr, inputs, opts) && n < |inputs|
    ensures Here(tr, n) == Net(tr[n].people, Crossings(tr[n], inputs[n], opts)) >= 0
    ensures LastCounted(tr[n], inputs[n], opts) ==
            if Here(tr, n) != AfterUp(tr, n) then inputs[n].stamp[1]
            else if AfterUp(tr, n) != tr[n].people then inputs[n].stamp[0]
            else tr[n].peopleTs
  {
    hide NextDetector, Step;
    CountingOverRuns(tr, inputs, opts, n);
    StepOf(tr, inputs, opts, n);
    var a := CrossingOf(tr[n].det[0], tr[n + 1].det[0]);
    var b := CrossingOf(tr[n].det[1], tr[n + 1].det[1]);
    OneCrossing(tr[n].people, tr[n].det[0], tr[n + 1].det[0]);
    OneCrossing(Net(tr[n].people, a), tr[n].det[1], tr[n + 1].det[1]);
    NetConcat(tr[n].people, a, b);
  }

  lemma StepOf(tr: seq<State>, inputs: seq<Input>, opts: Settings, n: nat)
    requires IsRun(tr, inputs, opts) && n < |inputs|
    ensures tr[n + 1] == Step(tr[n], inputs[n], opts)
    ensures tr[n + 1].det[0] == NextDetector(tr[n], inputs[n], opts, 0)
    ensures tr[n + 1].det[1] == NextDetector(tr[n], inputs[n], opts, 1)
    ensures tr[n + 1].block == Block(tr[n], inputs[n], opts)
    ensures tr[n + 1].peopleTs == LastCounted(tr[n], inputs[n], opts)
  {
    hide NextDetector, Step;
    assert StepsTo(tr, inputs, opts, n);
    DetectorStays(tr[n], inputs[n], opts, 0);
    DetectorStays(tr[n], inputs[n], opts, 1);
    OtherTimes(tr[n], inputs[n], opts);
  }

  lemma {:induction false} LastCrossingIs(tr: seq<State>, inputs: seq<Input>, opts: Settings, n: nat)
    requires IsRun(tr, inputs, opts) && n <= |inputs|
    ensures tr[n].peopleTs == LastCrossing(tr, inputs, n)
  {
    hide LastCounted, Step, NextDetector, AfterUp, Here;
    if n > 0 {
      LastCrossingIs(tr, inputs, opts, n - 1);
      StepOf(tr, inputs, opts, n - 1);
      StepCounts(tr, inputs, opts, n - 1);
    }
  }

  ghost predicate AllRest(s: State) {
    forall k: Kind :: !s.sweeps[k.No()].active
  }

  /**
   The stairs are emptied by iteration `n`: people are there, no sweep runs or starts, and the
   last crossing is too long ago.
   */
  ghost predicate Expires(tr: seq<State>, inputs: seq<Input>, opts: Settings, n: nat)
    requires n < |inputs| < |tr|
  {
    && 0 < Here(tr, n) <= tr[n].people && AllRest(tr[n])
    && inputs[n].over - LastCrossing(tr, inputs, n + 1) > opts.offTimeout
  }

  /** A rise of the count starts a sweep, so the timeout waits for it. */
  lemma RestsIff(s: State, i: Input, opts: Settings)
    requires opts.cfg.count > 0 && ValidFour(s.sweeps, opts.cfg) && s.people >= 0 && s.prev == s.people
    ensures var c := Counted(s, i, opts);
            c.people > 0 ==> (!AnyActive(c.sweeps) <==> AllRest(s) && c.people <= s.people)
  {
    hide NextDetector, LastCounted, Block;
    RestIsIdle(s.sweeps, opts.cfg);
    if Net(s.people, Crossings(s, i, opts)) > s.people {
      RiseStands(s, i, opts);
    }
    assert OnUp.No() == 0 && OffUp.No() == 1 && OnDown.No() == 2 && OffDown.No() == 3;
  }

  lemma RestIsIdle(sw: Four, cfg: Config)
    requires cfg.count > 0 && ValidFour(sw, cfg)
    ensures forall k: Kind :: !sw[k.No()].active ==> sw[k.No()].cnt == 0
  {
    forall k: Kind | !sw[k.No()].active
      ensures sw[k.No()].cnt == 0
    {
      assert ValidSweep(sw[k.No()], cfg);
    }
  }

  /** After a rise one of the detectors stands in Inc. */
  lemma RiseStands(s: State, i: Input, opts: Settings)
    requires s.people >= 0 && Net(s.people, Crossings(s, i, opts)) > s.people
    ensures NextDetector(s, i, opts, 0).state == Inc || NextDetector(s, i, opts, 1).state == Inc
  {
    hide NextDetector;
    var d0, d1 := NextDetector(s, i, opts, 0), NextDetector(s, i, opts, 1);
    OneCrossing(s.people, s.det[0], d0);
    OneCrossing(Net(s.people, CrossingOf(s.det[0], d0)), s.det[1], d1);
    NetConcat(s.people, CrossingOf(s.det[0], d0), CrossingOf(s.det[1], d1));
  }

  /**
   The count over runs: every iteration counts the detectors' crossings, and it empties the
   stairs if and only if somebody is there, all four sweeps rest, and the last crossing that
   changed the count is longer ago than the timeout.
   */
  lemma TimeoutIff(tr: seq<State>, inputs: seq<Input>, opts: Settings, n: nat)
    requires IsRun(tr, inputs, opts) && n < |inputs|
    ensures tr[n + 1].people == if Expires(tr, inputs, opts, n) then 0 else Here(tr, n)
  {
    hide Resets, Expires, AfterUp, Here;
    CountingOverRuns(tr, inputs, opts, n);
    StepCounts(tr, inputs, opts, n);
    IterationIsSound(tr, inputs, opts, n);
    ResetsIff(tr, inputs, opts, n);
  }

  lemma ResetsIff(tr: seq<State>, inputs: seq<Input>, opts: Settings, n: nat)
    requires IsRun(tr, inputs, opts) && n < |inputs|
    ensures Resets(tr[n], inputs[n], opts) <==> Expires(tr, inputs, opts, n)
  {
    hide Starts, AnyActive, AllRest, Crossings, NextDetector, Step, AfterUp, Here, LastCrossing, LastCounted;
    CountingOverRuns(tr, inputs, opts, n);
    StepOf(tr, inputs, opts, n);
    StepCounts(tr, inputs, opts, n);
    LastCrossingIs(tr, inputs, opts, n + 1);
    RestsIff(tr[n], inputs[n], opts);
  }

  // ----- the detectors -----

  /** Daylight blocks exactly while it is there, is to be used, and nobody is on the stairs. */
  lemma BlockIff(tr: seq<State>, inputs: seq<Input>, opts: Settings, n: nat)
    requires IsRun(tr, inputs, opts) && n < |inputs|
    ensures tr[n + 1].block <==> inputs[n].light && opts.useLight && tr[n].people == 0
  {
    hide Step, NextDetector, LastCounted;
    CountingOverRuns(tr, inputs, opts, n);
    StepOf(tr, inputs, opts, n);
  }

  predicate Faulty(i: Input, d: nat)
    requires d < 2
  {
    i.error[2 * d] || i.error[2 * d + 1]
  }

  /** The sensor that a crossing in this direction passes first: the outer one of somebody who enters. */
  function Lead(d: nat, to: DetectorState): (n: nat)
    requires d < 2
    ensures n < 4
  {
    if to == Inc then 2 * d else 2 * d + 1
  }

  function Follower(d: nat, to: DetectorState): (n: nat)
    requires d < 2
    ensures n < 4
  {
    if to == Inc then 2 * d + 1 else 2 * d
  }

  /** Somebody steps before the leading sensor of a detector at rest. */
  ghost predicate Begins(tr: seq<State>, inputs: seq<Input>, a: nat, d: nat, to: DetectorState)
    requires a < |inputs| < |tr| && d < 2
  {
    && tr[a].det[d].state == Resting && !tr[a + 1].block && !Faulty(inputs[a], d)
    && inputs[a].sensed[Lead(d, to)] && (to == Dec ==> !inputs[a].sensed[2 * d])
  }

  /** The leading sensor is still covered, or has not been clear for longer than the debounce time. */
  predicate InTime(i: Input, since: nat, d: nat, to: DetectorState, debounce: nat)
    requires d < 2
  {
    i.sensed[Lead(d, to)] || i.check[d] - since <= debounce
  }

  /** A crossing that began in time goes on without reaching the other sensor; a faulty sensor suspends it. */
  ghost predicate GoesOn(tr: seq<State>, inputs: seq<Input>, opts: Settings, a: nat, m: nat, d: nat, to: DetectorState)
    requires a < |inputs| < |tr| && m < |inputs| && d < 2
  {
    && !tr[m + 1].block
    && (Faulty(inputs[m], d)
        || (!inputs[m].sensed[Follower(d, to)] && InTime(inputs[m], inputs[a].stamp[d], d, to, opts.debounce)))
  }

  /** The other sensor is reached. */
  ghost predicate Reaches(tr: seq<State>, inputs: seq<Input>, opts: Settings, a: nat, b: nat, d: nat, to: DetectorState)
    requires a < |inputs| < |tr| && b < |inputs| && d < 2
  {
    && !tr[b + 1].block && !Faulty(inputs[b], d)
    && inputs[b].sensed[Follower(d, to)] && InTime(inputs[b], inputs[a].stamp[d], d, to, opts.debounce)
  }

  /** Between iterations `a` and `b` somebody passes the leading sensor first and then the other one. */
  ghost predicate Crosses(tr: seq<State>, inputs: seq<Input>, opts: Settings, a: nat, b: nat, d: nat,
                          to: DetectorState)
    requires a < b < |inputs| < |tr| && d < 2
  {
    && Begins(tr, inputs, a, d, to)
    && (forall m :: a < m < b ==> GoesOn(tr, inputs, opts, a, m, d, to))
    && Reaches(tr, inputs, opts, a, b, d, to)
  }

  function Lock(to: DetectorState): DetectorState {
    if to == Inc then FirstLock else SecondLock
  }

  lemma LockStep(tr: seq<State>, inputs: seq<Input>, opts: Settings, m: nat, d: nat, to: DetectorState)
    requires IsRun(tr, inputs, opts) && m < |inputs| && d < 2 && to in {Inc, Dec}
    ensures tr[m].det[d].state != Lock(to) && tr[m + 1].det[d].state == Lock(to) <==>
            Begins(tr, inputs, m, d, to)
    ensures Begins(tr, inputs, m, d, to) ==> tr[m + 1].det[d].ts == inputs[m].stamp[d]
  {
    hide Step, LastCounted;
    StepOf(tr, inputs, opts, m);
  }

  lemma HoldStep(tr: seq<State>, inputs: seq<Input>, opts: Settings, a: nat, m: nat, d: nat, to: DetectorState)
    requires IsRun(tr, inputs, opts) && a < m < |inputs| && d < 2 && to in {Inc, Dec}
    requires tr[m].det[d] == Detector(Lock(to), inputs[a].stamp[d])
    ensures tr[m + 1].det[d].state == Lock(to) <==> GoesOn(tr, inputs, opts, a, m, d, to)
    ensures tr[m + 1].det[d].state == Lock(to) ==> tr[m + 1].det[d] == tr[m].det[d]
    ensures tr[m + 1].det[d].state == to <==> Reaches(tr, inputs, opts, a, m, d, to)
  {
    hide Step, LastCounted;
    StepOf(tr, inputs, opts, m);
  }

  lemma TurnsFromLock(tr: seq<State>, inputs: seq<Input>, opts: Settings, m: nat, d: nat, to: DetectorState)
    requires IsRun(tr, inputs, opts) && m < |inputs| && d < 2 && to in {Inc, Dec}
    requires Turns(tr, m, d, to)
    ensures tr[m].det[d].state == Lock(to)
  {
    hide Step, LastCounted;
    StepOf(tr, inputs, opts, m);
  }

  /** A detector waits for the other sensor since somebody stepped before the leading one. */
  lemma {:induction false} LockedSince(tr: seq<State>, inputs: seq<Input>, opts: Settings, n: nat, d: nat,
                                       to: DetectorState) returns (a: nat)
    requires IsRun(tr, inputs, opts) && n <= |inputs| && d < 2 && to in {Inc, Dec}
    requires tr[n].det[d].state == Lock(to)
    ensures a < n && Begins(tr, inputs, a, d, to) && tr[n].det[d].ts == inputs[a].stamp[d]
    ensures forall m :: a < m < n ==> GoesOn(tr, inputs, opts, a, m, d, to)
  {
    hide Begins, GoesOn, Reaches;
    assert n > 0;
    LockStep(tr, inputs, opts, n - 1, d, to);
    if tr[n - 1].det[d].state == Lock(to) {
      a := LockedSince(tr, inputs, opts, n - 1, d, to);
      HoldStep(tr, inputs, opts, a, n - 1, d, to);
    } else {
      a := n - 1;
    }
  }

  lemma {:induction false} LockedUntil(tr: seq<State>, inputs: seq<Input>, opts: Settings, a: nat, n: nat, d: nat,
                                       to: DetectorState)
    requires IsRun(tr, inputs, opts) && a < n <= |inputs| && d < 2 && to in {Inc, Dec}
    requires Begins(tr, inputs, a, d, to) && forall m :: a < m < n ==> GoesOn(tr, inputs, opts, a, m, d, to)
    ensures tr[n].det[d] == Detector(Lock(to), inputs[a].stamp[d])
  {
    hide Begins, GoesOn, Reaches;
    if n == a + 1 {
      LockStep(tr, inputs, opts, a, d, to);
    } else {
      LockedUntil(tr, inputs, opts, a, n - 1, d, to);
      HoldStep(tr, inputs, opts, a, n - 1, d, to);
    }
  }

  /**
   An iteration counts somebody as entering at a detector if and only if its outer sensor was
   covered first, its inner one now, and in between the outer one was not clear for longer than
   the debounce time; leaving is the same with the sensors exchanged.
   */
  lemma CrossingIff(tr: seq<State>, inputs: seq<Input>, opts: Settings, b: nat, d: nat, to: DetectorState)
    requires IsRun(tr, inputs, opts) && b < |inputs| && d < 2 && to in {Inc, Dec}
    ensures Turns(tr, b, d, to) <==> exists a: nat :: a < b && Crosses(tr, inputs, opts, a, b, d, to)
  {
    hide Begins, GoesOn, Reaches;
    if Turns(tr, b, d, to) {
      TurnsFromLock(tr, inputs, opts, b, d, to);
      var a := LockedSince(tr, inputs, opts, b, d, to);
      HoldStep(tr, inputs, opts, a, b, d, to);
      assert Crosses(tr, inputs, opts, a, b, d, to);
    }
    if a: nat :| a < b && Crosses(tr, inputs, opts, a, b, d, to) {
      LockedUntil(tr, inputs, opts, a, b, d, to);
      HoldStep(tr, inputs, opts, a, b, d, to);
    }
  }

  /** The stamp of the last change of a detector's state in the first `n` iterations. */
  function LastTurn(tr: seq<State>, inputs: seq<Input>, n: nat, d: nat): nat
    requires n <= |inputs| < |tr| && d < 2
  {
    if n == 0 then 0
    else if tr[n].det[d].state != tr[n - 1].det[d].state then inputs[n - 1].stamp[d]
    else LastTurn(tr, inputs, n - 1, d)
  }

  lemma {:induction false} LastTurnIs(tr: seq<State>, inputs: seq<Input>, opts: Settings, n: nat, d: nat)
    requires IsRun(tr, inputs, opts) && n <= |inputs| && d < 2 && tr[n].det[d].state != Resting
    ensures tr[n].det[d].ts == LastTurn(tr, inputs, n, d)
  {
    hide Step, LastCounted;
    assert n > 0;
    StepOf(tr, inputs, opts, n - 1);
    if tr[n].det[d].state == tr[n - 1].det[d].state {
      LastTurnIs(tr, inputs, opts, n - 1, d);
    }
  }

  /**
   A detector comes back to rest if and only if daylight blocks, or its working sensors are clear
   longer than the debounce time after its last change: both after a crossing, else the one that
   was covered first.
   */
  lemma RestsAgainIff(tr: seq<State>, inputs: seq<Input>, opts: Settings, n: nat, d: nat)
    requires IsRun(tr, inputs, opts) && n < |inputs| && d < 2 && tr[n].det[d].state != Resting
    ensures var i, state := inputs[n], tr[n].det[d].state;
            tr[n + 1].det[d].state == Resting <==>
            tr[n + 1].block
            || (!Faulty(i, d) && i.check[d] - LastTurn(tr, inputs, n, d) > opts.debounce
                && (state != SecondLock ==> !i.sensed[2 * d]) && (state != FirstLock ==> !i.sensed[2 * d + 1]))
  {
    hide Step, LastCounted, LastTurn;
    LastTurnIs(tr, inputs, opts, n, d);
    StepOf(tr, inputs, opts, n);
  }

  // ----- the sweeps that start -----

  /** Whether the last rise of the count in the first `n` iterations left only the upper detector in Inc. */
  ghost function LastRiseUp(tr: seq<State>, n: nat): bool
    requires n < |tr|
  {
    if n == 0 then true
    else if Here(tr, n - 1) > tr[n - 1].people then tr[n].det[1].state != Inc
    else LastRiseUp(tr, n - 1)
  }

  lemma {:induction false} LastRiseIs(tr: seq<State>, inputs: seq<Input>, opts: Settings, n: nat)
    requires IsRun(tr, inputs, opts) && n <= |inputs|
    ensures tr[n].lastUp == LastRiseUp(tr, n)
  {
    hide Here, NextDetector, Crossings, LastCounted, Starts, Block, TimedOut;
    if n > 0 {
      LastRiseIs(tr, inputs, opts, n - 1);
      LastUpStep(tr, inputs, opts, n - 1);
    }
  }

  lemma LastUpStep(tr: seq<State>, inputs: seq<Input>, opts: Settings, n: nat)
    requires IsRun(tr, inputs, opts) && n < |inputs|
    ensures tr[n + 1].lastUp == if Here(tr, n) > tr[n].people then tr[n + 1].det[1].state != Inc else tr[n].lastUp
    ensures Counted(tr[n], inputs[n], opts).lastUp == tr[n + 1].lastUp
  {
    hide Here, NextDetector, Crossings, LastCounted, Starts, Block, TimedOut;
    CountingOverRuns(tr, inputs, opts, n);
    StepOf(tr, inputs, opts, n);
    StepCounts(tr, inputs, opts, n);
    if Here(tr, n) > tr[n].people {
      RiseStands(tr[n], inputs[n], opts);
    }
  }

  /**
   When iteration `n` starts a sweep: at an entry on its side, when the last one leaves on its
   side, or at the timeout.
   */
  ghost function Begun(tr: seq<State>, inputs: seq<Input>, opts: Settings, n: nat, k: Kind): seq<Event>
    requires n < |inputs| < |tr|
  {
    var d := if k.OnUp? || k.OffUp? then 0 else 1;
    if k.OnUp? || k.OnDown? then
      if Here(tr, n) > tr[n].people && tr[n + 1].det[d].state == Inc then [Start(k, inputs[n].trigger[d])] else []
    else if Here(tr, n) == 0 && tr[n].people > 0 && tr[n + 1].det[d].state == Dec then
      [Start(k, inputs[n].trigger[d])]
    else if Expires(tr, inputs, opts, n) && LastRiseUp(tr, n) == k.OffDown? then [Start(k, inputs[n].end)]
    else []
  }

  /** The start of the last iteration that ticked among the first `n`. */
  function LastTick(inputs: seq<Input>, opts: Settings, n: nat): nat
    requires n <= |inputs|
  {
    if n == 0 then 0
    else if inputs[n - 1].start - LastTick(inputs, opts, n - 1) > opts.interval then inputs[n - 1].start
    else LastTick(inputs, opts, n - 1)
  }

  lemma {:induction false} LastTickIs(tr: seq<State>, inputs: seq<Input>, opts: Settings, n: nat)
    requires IsRun(tr, inputs, opts) && n <= |inputs|
    ensures tr[n].tickTs == LastTick(inputs, opts, n)
  {
    hide NextDetector, Crossings, LastCounted, Starts, Block, TimedOut, TickAll;
    if n > 0 {
      LastTickIs(tr, inputs, opts, n - 1);
      assert StepsTo(tr, inputs, opts, n - 1);
    }
  }

  ghost function Ticks(inputs: seq<Input>, opts: Settings, n: nat): seq<Event>
    requires n < |inputs|
  {
    if inputs[n].start - LastTick(inputs, opts, n) > opts.interval then [Tick] else []
  }

  /**
   What an iteration does to the sweeps: an entry starts the on sweep of its side, the last
   one's leaving starts the off sweep of its side, the timeout starts the off sweep that runs
   away from the last entry, and the tick comes whenever more than its interval has passed.
   */
  lemma EventsAre(tr: seq<State>, inputs: seq<Input>, opts: Settings, n: nat)
    requires IsRun(tr, inputs, opts) && n < |inputs|
    ensures StepEvents(tr[n], inputs[n], opts) ==
            Begun(tr, inputs, opts, n, OnUp) + Begun(tr, inputs, opts, n, OnDown)
            + Begun(tr, inputs, opts, n, OffUp) + Begun(tr, inputs, opts, n, OffDown) + Ticks(inputs, opts, n)
  {
    hide Here, NextDetector, Crossings, LastCounted, Starts, Block, LastRiseUp, LastCrossing, AllRest, LastTick;
    CountingOverRuns(tr, inputs, opts, n);
    StepOf(tr, inputs, opts, n);
    StepCounts(tr, inputs, opts, n);
    ResetsIff(tr, inputs, opts, n);
    LastRiseIs(tr, inputs, opts, n);
    LastUpStep(tr, inputs, opts, n);
    LastTickIs(tr, inputs, opts, n);
  }
}
