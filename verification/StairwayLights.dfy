/** What the LEDs show after a run of the main loop. */
module StairwayLights {
  import opened Leds
  import opened Sweeps
  import opened Settling
  import opened Stairway

  // ----- an iteration as sweep events -----

  function StartEvents(up: DetectorState, down: DetectorState, people: int, prev: int, at: Times): seq<Event> {
    if people > prev then
      (if up == Inc then [Start(OnUp, at[0])] else []) + if down == Inc then [Start(OnDown, at[1])] else []
    else if people < prev && people == 0 then
      (if up == Dec then [Start(OffUp, at[0])] else []) + if down == Dec then [Start(OffDown, at[1])] else []
    else []
  }

  function CountEvents(s: State, i: Input, opts: Settings): seq<Event> {
    var c := Counted(s, i, opts);
    StartEvents(c.det[0].state, c.det[1].state, c.people, s.prev, i.trigger)
  }

  function TimeoutEvents(s: State, i: Input, opts: Settings): seq<Event> {
    if TimedOut(s, i, opts) then [Start(if s.lastUp then OffDown else OffUp, i.end)] else []
  }

  function TickEvents(s: State, i: Input, opts: Settings): seq<Event> {
    if TickDue(s, i, opts) then [Tick] else []
  }

  /** The starts and the tick of one iteration, in the order of the source. */
  function StepEvents(s: State, i: Input, opts: Settings): seq<Event> {
    CountEvents(s, i, opts) + TimeoutEvents(Counted(s, i, opts), i, opts) + TickEvents(s, i, opts)
  }

  lemma OneEvent(sw: Four, e: Event, cfg: Config)
    requires cfg.count > 0
    ensures RunSweeps(sw, [e], cfg).0 == StepSweeps(sw, e, cfg).0
            && RunSweeps(sw, [e], cfg).1 == StepSweeps(sw, e, cfg).1
  {
    assert [e][..0] == [] && RunSweeps(sw, [], cfg) == (sw, []);
    assert [] + StepSweeps(sw, e, cfg).1 == StepSweeps(sw, e, cfg).1;
  }

  lemma TwoStarts(sw: Four, first: bool, k: Kind, t: nat, second: bool, j: Kind, u: nat, cfg: Config)
    requires cfg.count > 0
    ensures var r := RunSweeps(sw, (if first then [Start(k, t)] else []) + if second then [Start(j, u)] else [], cfg);
            var a: Four := if first then sw[k.No() := Trigger(sw[k.No()], t, cfg)] else sw;
            r.0 == (if second then a[j.No() := Trigger(a[j.No()], u, cfg)] else a) && r.1 == []
  {
    var a: Four := if first then sw[k.No() := Trigger(sw[k.No()], t, cfg)] else sw;
    RunSweepsConcat(sw, if first then [Start(k, t)] else [], if second then [Start(j, u)] else [], cfg);
    OneEvent(sw, Start(k, t), cfg);
    OneEvent(a, Start(j, u), cfg);
  }

  lemma StartsAreEvents(sw: Four, up: DetectorState, down: DetectorState, people: int, prev: int, at: Times,
      cfg: Config)
    requires cfg.count > 0
    ensures var r := RunSweeps(sw, StartEvents(up, down, people, prev, at), cfg);
            r.0 == Starts(sw, up, down, people, prev, at, cfg) && r.1 == []
  {
    if people > prev {
      TwoStarts(sw, up == Inc, OnUp, at[0], down == Inc, OnDown, at[1], cfg);
    } else if people < prev && people == 0 {
      TwoStarts(sw, up == Dec, OffUp, at[0], down == Dec, OffDown, at[1], cfg);
    }
  }

  /** The timeout's start skips the guard of the triggers, but no sweep is active then, so it would hold. */
  lemma TimeoutIsEvent(s: State, i: Input, opts: Settings)
    requires opts.cfg.count > 0 && ValidFour(s.sweeps, opts.cfg)
    ensures var r := RunSweeps(s.sweeps, TimeoutEvents(s, i, opts), opts.cfg);
            r.0 == Timeout(s, i, opts).sweeps && r.1 == []
  {
    if TimedOut(s, i, opts) {
      var k := if s.lastUp then OffDown else OffUp;
      assert ValidSweep(s.sweeps[k.No()], opts.cfg);
      OneEvent(s.sweeps, Start(k, i.end), opts.cfg);
    }
  }

  lemma TickIsEvent(s: State, i: Input, opts: Settings)
    requires opts.cfg.count > 0
    ensures var r := RunSweeps(s.sweeps, TickEvents(s, i, opts), opts.cfg);
            r.0 == Ticked(s, i, opts).sweeps && r.1 == TickWrites(s, i, opts)
  {
    OneEvent(s.sweeps, Tick, opts.cfg);
  }

  /** The sweeps and the writes of an iteration are those of its events. */
  lemma StepIsEvents(s: State, i: Input, opts: Settings)
    requires opts.cfg.count > 0 && ValidFour(s.sweeps, opts.cfg)
    ensures var r := RunSweeps(s.sweeps, StepEvents(s, i, opts), opts.cfg);
            r.0 == Step(s, i, opts).sweeps && r.1 == StepWrites(s, i, opts)
  {
    hide TimeoutEvents, TickEvents, StartEvents, Starts;
    var cfg, c := opts.cfg, Counted(s, i, opts);
    var a, b := CountEvents(s, i, opts), TimeoutEvents(c, i, opts);
    StartsAreEvents(s.sweeps, c.det[0].state, c.det[1].state, c.people, s.prev, i.trigger, cfg);
    StartsStayValid(s.sweeps, c.det[0].state, c.det[1].state, c.people, s.prev, i.trigger, cfg);
    TimeoutIsEvent(c, i, opts);
    TickIsEvent(Timeout(c, i, opts), i, opts);
    SameTick(s, i, opts);
    RunSweepsConcat(s.sweeps, a, b, cfg);
    RunSweepsConcat(s.sweeps, a + b, TickEvents(s, i, opts), cfg);
  }

  lemma SameTick(s: State, i: Input, opts: Settings)
    ensures TickEvents(s, i, opts) == TickEvents(Timeout(Counted(s, i, opts), i, opts), i, opts)
    ensures TickDue(s, i, opts) == TickDue(Timeout(Counted(s, i, opts), i, opts), i, opts)
  {
  }

  // ----- runs -----

  function RunEvents(tr: seq<State>, inputs: seq<Input>, opts: Settings, n: nat): seq<Event>
    requires n <= |inputs| < |tr|
  {
    if n == 0 then [] else RunEvents(tr, inputs, opts, n - 1) + StepEvents(tr[n - 1], inputs[n - 1], opts)
  }

  /** Everything written to the LED strip in the first `n` iterations. */
  function RunWrites(tr: seq<State>, inputs: seq<Input>, opts: Settings, n: nat): seq<Write>
    requires opts.cfg.count > 0 && n <= |inputs| < |tr|
  {
    if n == 0 then [] else RunWrites(tr, inputs, opts, n - 1) + StepWrites(tr[n - 1], inputs[n - 1], opts)
  }

  lemma RunShape(tr: seq<State>, inputs: seq<Input>, opts: Settings)
    requires IsRun(tr, inputs, opts)
    ensures opts.cfg.count > 0 && |tr| == |inputs| + 1 && Idle(INITIAL.sweeps)
  {
  }

  lemma {:induction false} RunIsEvents(tr: seq<State>, inputs: seq<Input>, opts: Settings, n: nat)
    requires IsRun(tr, inputs, opts) && n <= |inputs|
    ensures var r := RunSweeps(INITIAL.sweeps, RunEvents(tr, inputs, opts, n), opts.cfg);
            r.0 == tr[n].sweeps && r.1 == RunWrites(tr, inputs, opts, n)
  {
    hide Step, StepWrites, StepEvents, StepSweeps;
    if n > 0 {
      RunIsEvents(tr, inputs, opts, n - 1);
      CountingOverRuns(tr, inputs, opts, n - 1);
      assert StepsTo(tr, inputs, opts, n - 1);
      StepIsEvents(tr[n - 1], inputs[n - 1], opts);
      var before := RunEvents(tr, inputs, opts, n - 1);
      RunSweepsConcat(INITIAL.sweeps, before, StepEvents(tr[n - 1], inputs[n - 1], opts), opts.cfg);
    }
  }

  /** Start times between two readings of the clock, never going back. */
  ghost predicate Timed(events: seq<Event>, from: nat, last: nat) {
    && (forall m :: 0 <= m < |events| && events[m].Start? ==> from <= events[m].ts <= last)
    && (forall m, n :: 0 <= m < n < |events| && events[m].Start? && events[n].Start? ==> events[m].ts <= events[n].ts)
  }

  lemma TimedConcat(a: seq<Event>, b: seq<Event>, from: nat, mid: nat, last: nat)
    requires Timed(a, from, mid) && Timed(b, mid, last) && from <= mid <= last
    ensures Timed(a + b, from, last)
  {
  }

  lemma StepTimed(s: State, i: Input, opts: Settings, now: nat)
    requires Ordered(i, now)
    ensures Timed(StepEvents(s, i, opts), i.start, i.end)
  {
    var a, b := CountEvents(s, i, opts), TimeoutEvents(Counted(s, i, opts), i, opts);
    StartsTimed(s, i, opts, now);
    assert Timed(b, i.end, i.end);
    TimedConcat(a, b, i.start, i.end, i.end);
    assert Timed(TickEvents(s, i, opts), i.end, i.end);
    TimedConcat(a + b, TickEvents(s, i, opts), i.start, i.end, i.end);
  }

  lemma StartsTimed(s: State, i: Input, opts: Settings, now: nat)
    requires Ordered(i, now)
    ensures Timed(CountEvents(s, i, opts), i.start, i.end)
  {
    hide Counted;
  }

  lemma {:induction false} RunTimed(tr: seq<State>, inputs: seq<Input>, opts: Settings, n: nat)
    requires IsRun(tr, inputs, opts) && n <= |inputs|
    ensures n > 0 ==> inputs[0].start <= inputs[n - 1].end
    ensures n > 0 ==> Timed(RunEvents(tr, inputs, opts, n), inputs[0].start, inputs[n - 1].end)
    ensures n == 0 ==> RunEvents(tr, inputs, opts, n) == []
  {
    if n > 0 {
      RunTimed(tr, inputs, opts, n - 1);
      var before := RunEvents(tr, inputs, opts, n - 1);
      var s, i := tr[n - 1], inputs[n - 1];
      assert StepsTo(tr, inputs, opts, n - 1);
      StepTimed(s, i, opts, EndBefore(inputs, n - 1));
      if n > 1 {
        Later(before, inputs[0].start, inputs[n - 2].end, i.start);
        TimedConcat(before, StepEvents(s, i, opts), inputs[0].start, i.start, i.end);
      } else {
        assert before + StepEvents(s, i, opts) == StepEvents(s, i, opts);
      }
    }
  }

  lemma Later(events: seq<Event>, from: nat, last: nat, later: nat)
    requires Timed(events, from, last) && last <= later
    ensures Timed(events, from, later)
  {
  }

  /**
   Whenever the sweeps rest, each LED has the time of the last start, over the whole run of the
   main loop, that found its sweep not past the LED, and the state that was written to it first
   with this time: the start's own, unless a start of the opposite kind took the LED in the same
   millisecond. An LED that no start took shows what it showed at first.
   */
  lemma LedsOverRuns(tr: seq<State>, inputs: seq<Input>, opts: Settings, n: nat, l: Led, i: nat)
    requires IsRun(tr, inputs, opts) && 0 < n <= |inputs| && i < opts.cfg.count && l.ts < inputs[0].start
    requires Idle(tr[n].sweeps)
    ensures var events := RunEvents(tr, inputs, opts, n);
            var m := LastTaker(INITIAL.sweeps, events, i, |events|, opts.cfg);
            var ws := RunWrites(tr, inputs, opts, n);
            var r := After(l, ws, i);
            if m < 0 then r == l
            else
              && r.value == l.value && r.ts == events[m].ts
              && First(ws, i, r.on, r.ts) && Claimed(INITIAL.sweeps, events, i, r.on, r.ts, opts.cfg)
              && (TiesAgree(INITIAL.sweeps, events, m, i, opts.cfg) ==> r.on == events[m].kind.IsOn())
  {
    hide RunSweeps, RunEvents, RunWrites, IsRun, After;
    RunShape(tr, inputs, opts);
    var events := RunEvents(tr, inputs, opts, n);
    RunIsEvents(tr, inputs, opts, n);
    RunTimed(tr, inputs, opts, n);
    forall e | e in events && e.Start? ensures l.ts < e.ts {
      var m :| 0 <= m < |events| && events[m] == e;
    }
    LedsSettle(INITIAL.sweeps, events, l, i, opts.cfg);
  }

  /**
   After the last start of a run, newer than all before it, and once the sweeps rest, the whole
   strip shows that start if and only if it found its sweep's counter at zero.
   */
  lemma LastStartOverRuns(tr: seq<State>, inputs: seq<Input>, opts: Settings, n: nat, leds: seq<Led>,
                          pre: seq<Event>, k: Kind, ts: nat, post: seq<Event>)
    requires IsRun(tr, inputs, opts) && n <= |inputs| && Idle(tr[n].sweeps)
    requires RunEvents(tr, inputs, opts, n) == pre + [Start(k, ts)] + post && OnlyTicks(post) && StartsBefore(pre, ts)
    requires |leds| == opts.cfg.count && forall i :: 0 <= i < |leds| ==> leds[i].ts < ts
    ensures (forall i :: 0 <= i < |leds| ==>
               After(leds[i], RunWrites(tr, inputs, opts, n), i) == Led(leds[i].value, k.IsOn(), ts))
            <==> RunSweeps(INITIAL.sweeps, pre, opts.cfg).0[k.No()].cnt == 0
  {
    hide RunSweeps, RunEvents, RunWrites, IsRun, After;
    RunShape(tr, inputs, opts);
    RunIsEvents(tr, inputs, opts, n);
    SweepsSettle(INITIAL.sweeps, pre, k, ts, post, leds, opts.cfg);
  }
}
