/**
 Which of several overlapping sweeps an LED belongs to in the end. A sweep that is started
 again while it runs keeps its counter and takes the new time, so a start reaches only the
 LEDs that the counter has not passed.
 */
module Settling {
  import opened Leds
  import opened Sweeps

  /** Sweep `k` as start `n` finds it. */
  function Found(s: Four, events: seq<Event>, n: nat, k: Kind, cfg: Config): Sweep
    requires cfg.count > 0 && n <= |events|
  {
    RunSweeps(s, events[..n], cfg).0[k.No()]
  }

  /** Event `n` starts a sweep whose counter has not passed LED `i` yet. */
  predicate Takes(s: Four, events: seq<Event>, n: nat, i: nat, cfg: Config)
    requires i < cfg.count && n < |events|
  {
    events[n].Start? && Found(s, events, n, events[n].kind, cfg).cnt <= CounterOf(events[n].kind, i, cfg.count)
  }

  /** Start `m` renews the time of the same sweep before that sweep has reached LED `i`. */
  predicate Overtakes(s: Four, events: seq<Event>, n: nat, m: nat, i: nat, cfg: Config)
    requires i < cfg.count && n < |events| && m < |events|
  {
    && n < m && events[n].Start? && Takes(s, events, m, i, cfg) && events[m].kind == events[n].kind
    && Found(s, events, m, events[m].kind, cfg).active
  }

  predicate Has(events: seq<Event>, m: nat, k: Kind, ts: nat) {
    m < |events| && events[m] == Start(k, ts)
  }

  /** A running sweep carries the time of a start that found it no further than it is. */
  ghost predicate Running(s: Four, events: seq<Event>, now: Four, k: Kind, cfg: Config)
    requires cfg.count > 0
  {
    var sw := now[k.No()];
    ValidSweep(sw, cfg)
    && (sw.active ==> exists m: nat :: Has(events, m, k, sw.ts) && Found(s, events, m, k, cfg).cnt <= sw.cnt)
  }

  /** A write to LED `i` is that of a start that took it. */
  ghost predicate Accounted(s: Four, events: seq<Event>, w: Write, i: nat, cfg: Config)
    requires i < cfg.count
  {
    exists m: nat, k: Kind :: Has(events, m, k, w.ts) && Takes(s, events, m, i, cfg) && w.on == k.IsOn()
  }

  /** A start that took LED `i` has written it, was overtaken, or is still on its way. */
  ghost predicate Served(s: Four, events: seq<Event>, now: Four, ws: seq<Write>, n: nat, i: nat, cfg: Config)
    requires i < cfg.count && n < |events| && events[n].Start?
  {
    var k, ts := events[n].kind, events[n].ts;
    || Write(i, k.IsOn(), ts) in ws
    || (exists m: nat :: m < |events| && Overtakes(s, events, n, m, i, cfg))
    || (now[k.No()].active && now[k.No()].ts == ts && now[k.No()].cnt <= CounterOf(k, i, cfg.count))
  }

  ghost predicate Traced(s: Four, events: seq<Event>, now: Four, ws: seq<Write>, i: nat, cfg: Config)
    requires i < cfg.count
  {
    && (forall k: Kind :: Running(s, events, now, k, cfg))
    && (forall w :: w in ws && w.index == i ==> Accounted(s, events, w, i, cfg))
    && (forall n :: 0 <= n < |events| && Takes(s, events, n, i, cfg) ==> Served(s, events, now, ws, n, i, cfg))
  }

  // ----- every step keeps the account -----

  lemma FoundBefore(s: Four, events: seq<Event>, e: Event, n: nat, k: Kind, cfg: Config)
    requires cfg.count > 0 && n <= |events|
    ensures Found(s, events + [e], n, k, cfg) == Found(s, events, n, k, cfg)
  {
    assert (events + [e])[..n] == events[..n];
  }

  lemma TakesBefore(s: Four, events: seq<Event>, e: Event, n: nat, i: nat, cfg: Config)
    requires i < cfg.count && n < |events|
    ensures Takes(s, events + [e], n, i, cfg) <==> Takes(s, events, n, i, cfg)
  {
    if events[n].Start? {
      FoundBefore(s, events, e, n, events[n].kind, cfg);
    }
  }

  lemma OvertakesBefore(s: Four, events: seq<Event>, e: Event, n: nat, m: nat, i: nat, cfg: Config)
    requires i < cfg.count && n < |events| && m < |events| && Overtakes(s, events, n, m, i, cfg)
    ensures Overtakes(s, events + [e], n, m, i, cfg)
  {
    TakesBefore(s, events, e, m, i, cfg);
    FoundBefore(s, events, e, m, events[m].kind, cfg);
  }

  lemma RunningKept(s: Four, events: seq<Event>, e: Event, now: Four, later: Four, k: Kind, cfg: Config)
    requires cfg.count > 0 && Running(s, events, now, k, cfg) && ValidSweep(later[k.No()], cfg)
    requires later[k.No()].active ==>
               now[k.No()].active && later[k.No()].ts == now[k.No()].ts && now[k.No()].cnt <= later[k.No()].cnt
    ensures Running(s, events + [e], later, k, cfg)
  {
    if later[k.No()].active {
      var m: nat :| Has(events, m, k, now[k.No()].ts) && Found(s, events, m, k, cfg).cnt <= now[k.No()].cnt;
      FoundBefore(s, events, e, m, k, cfg);
      assert Has(events + [e], m, k, later[k.No()].ts);
    }
  }

  lemma AccountedKept(s: Four, events: seq<Event>, e: Event, w: Write, i: nat, cfg: Config)
    requires i < cfg.count && Accounted(s, events, w, i, cfg)
    ensures Accounted(s, events + [e], w, i, cfg)
  {
    var m: nat, k: Kind :| Has(events, m, k, w.ts) && Takes(s, events, m, i, cfg) && w.on == k.IsOn();
    TakesBefore(s, events, e, m, i, cfg);
    assert Has(events + [e], m, k, w.ts);
  }

  /** The writes of one tick in terms of the counter. */
  lemma WriteAt(k: Kind, sw: Sweep, j: nat, cfg: Config)
    requires cfg.count > 0 && j < |Advance(k, sw, cfg).1|
    ensures sw.active && sw.cnt + j < cfg.count
    ensures var i := IndexOf(k, sw.cnt + j, cfg.count);
            Advance(k, sw, cfg).1[j] == Write(i, k.IsOn(), sw.ts) && CounterOf(k, i, cfg.count) == sw.cnt + j
  {
  }

  /** A write that a tick makes comes from a start that took its LED. */
  lemma TickAccounted(s: Four, events: seq<Event>, now: Four, w: Write, i: nat, cfg: Config)
    requires i < cfg.count && (forall k: Kind :: Running(s, events, now, k, cfg))
    requires w in TickAll(now, cfg).1 && w.index == i
    ensures Accounted(s, events, w, i, cfg)
  {
    TickWritesFrom(now, w, cfg);
    var k: Kind :| w in Advance(k, now[k.No()], cfg).1;
    var sw := now[k.No()];
    AdvanceWrites(k, sw, cfg);
    var j :| 0 <= j < |Advance(k, sw, cfg).1| && Advance(k, sw, cfg).1[j] == w;
    WriteAt(k, sw, j, cfg);
    assert Running(s, events, now, k, cfg);
    var m: nat :| Has(events, m, k, sw.ts) && Found(s, events, m, k, cfg).cnt <= sw.cnt;
    assert Takes(s, events, m, i, cfg);
  }

  /** A sweep on its way to LED `i` gets there in this tick or stays on its way. */
  lemma AdvanceServes(k: Kind, sw: Sweep, i: nat, cfg: Config)
    requires i < cfg.count && sw.active && sw.cnt <= CounterOf(k, i, cfg.count)
    ensures var (sw', made) := Advance(k, sw, cfg);
            || Write(i, k.IsOn(), sw.ts) in made
            || (sw'.active && sw'.ts == sw.ts && sw'.cnt <= CounterOf(k, i, cfg.count))
  {
    var (sw', made) := Advance(k, sw, cfg);
    var c := CounterOf(k, i, cfg.count);
    if c < sw'.cnt {
      WriteAt(k, sw, c - sw.cnt, cfg);
      assert made[c - sw.cnt] in made;
    }
  }

  lemma TickServed(s: Four, events: seq<Event>, now: Four, ws: seq<Write>, n: nat, i: nat, cfg: Config)
    requires i < cfg.count && n < |events| && events[n].Start? && Served(s, events, now, ws, n, i, cfg)
    ensures var (later, made) := TickAll(now, cfg); Served(s, events + [Tick], later, ws + made, n, i, cfg)
  {
    var k, ts := events[n].kind, events[n].ts;
    var (later, made) := TickAll(now, cfg);
    if Write(i, k.IsOn(), ts) in ws {
      assert Write(i, k.IsOn(), ts) in ws + made;
    } else if exists m: nat :: m < |events| && Overtakes(s, events, n, m, i, cfg) {
      var m: nat :| m < |events| && Overtakes(s, events, n, m, i, cfg);
      OvertakesBefore(s, events, Tick, n, m, i, cfg);
    } else {
      AdvanceServes(k, now[k.No()], i, cfg);
      TickAt(now, k, cfg);
      assert Advance(k, now[k.No()], cfg).0 == later[k.No()];
      assert Write(i, k.IsOn(), ts) in Advance(k, now[k.No()], cfg).1 ==> Write(i, k.IsOn(), ts) in ws + made;
    }
  }

  lemma TickRunning(s: Four, events: seq<Event>, now: Four, k: Kind, cfg: Config)
    requires cfg.count > 0 && Running(s, events, now, k, cfg)
    ensures Running(s, events + [Tick], TickAll(now, cfg).0, k, cfg)
  {
    TickAt(now, k, cfg);
    SweepStaysValid(k, now[k.No()], 0, cfg);
    RunningKept(s, events, Tick, now, TickAll(now, cfg).0, k, cfg);
  }

  lemma TickTraced(s: Four, events: seq<Event>, now: Four, ws: seq<Write>, i: nat, cfg: Config)
    requires i < cfg.count && Traced(s, events, now, ws, i, cfg)
    ensures Traced(s, events + [Tick], TickAll(now, cfg).0, ws + TickAll(now, cfg).1, i, cfg)
  {
    var (later, made) := TickAll(now, cfg);
    forall k: Kind ensures Running(s, events + [Tick], later, k, cfg) {
      TickRunning(s, events, now, k, cfg);
    }
    forall w | w in ws + made && w.index == i ensures Accounted(s, events + [Tick], w, i, cfg) {
      if w in made {
        TickAccounted(s, events, now, w, i, cfg);
      }
      AccountedKept(s, events, Tick, w, i, cfg);
    }
    forall n | 0 <= n < |events + [Tick]| && Takes(s, events + [Tick], n, i, cfg)
      ensures Served(s, events + [Tick], later, ws + made, n, i, cfg)
    {
      TakesBefore(s, events, Tick, n, i, cfg);
      TickServed(s, events, now, ws, n, i, cfg);
    }
  }

  lemma StartRunning(s: Four, events: seq<Event>, now: Four, k: Kind, ts: nat, j: Kind, cfg: Config)
    requires cfg.count > 0 && now == RunSweeps(s, events, cfg).0 && Running(s, events, now, j, cfg)
    ensures Running(s, events + [Start(k, ts)], StepSweeps(now, Start(k, ts), cfg).0, j, cfg)
  {
    var e, later := Start(k, ts), StepSweeps(now, Start(k, ts), cfg).0;
    SweepStaysValid(j, now[j.No()], ts, cfg);
    if j == k && now[k.No()].cnt != cfg.count {
      assert (events + [e])[..|events|] == events;
      assert Has(events + [e], |events|, k, ts);
    } else {
      assert later[j.No()] == now[j.No()];
      RunningKept(s, events, e, now, later, j, cfg);
    }
  }

  lemma StartServed(s: Four, events: seq<Event>, now: Four, ws: seq<Write>, k: Kind, ts: nat, n: nat, i: nat,
      cfg: Config)
    requires i < cfg.count && now == RunSweeps(s, events, cfg).0
    requires n < |events| && events[n].Start? && Served(s, events, now, ws, n, i, cfg)
    ensures Served(s, events + [Start(k, ts)], StepSweeps(now, Start(k, ts), cfg).0, ws, n, i, cfg)
  {
    var e, j := Start(k, ts), events[n].kind;
    if exists m: nat :: m < |events| && Overtakes(s, events, n, m, i, cfg) {
      var m: nat :| m < |events| && Overtakes(s, events, n, m, i, cfg);
      OvertakesBefore(s, events, e, n, m, i, cfg);
    } else if Write(i, j.IsOn(), events[n].ts) !in ws && j == k {
      assert (events + [e])[..|events|] == events;
      assert Overtakes(s, events + [e], n, |events|, i, cfg);
    }
  }

  lemma NewServed(s: Four, events: seq<Event>, now: Four, ws: seq<Write>, k: Kind, ts: nat, i: nat, cfg: Config)
    requires i < cfg.count && now == RunSweeps(s, events, cfg).0
    requires Takes(s, events + [Start(k, ts)], |events|, i, cfg)
    ensures Served(s, events + [Start(k, ts)], StepSweeps(now, Start(k, ts), cfg).0, ws, |events|, i, cfg)
  {
    assert (events + [Start(k, ts)])[..|events|] == events;
  }

  lemma StartTraced(s: Four, events: seq<Event>, now: Four, ws: seq<Write>, k: Kind, ts: nat, i: nat, cfg: Config)
    requires i < cfg.count && now == RunSweeps(s, events, cfg).0 && Traced(s, events, now, ws, i, cfg)
    ensures Traced(s, events + [Start(k, ts)], StepSweeps(now, Start(k, ts), cfg).0, ws, i, cfg)
  {
    var e, later := Start(k, ts), StepSweeps(now, Start(k, ts), cfg).0;
    forall j: Kind ensures Running(s, events + [e], later, j, cfg) {
      StartRunning(s, events, now, k, ts, j, cfg);
    }
    forall w | w in ws && w.index == i ensures Accounted(s, events + [e], w, i, cfg) {
      AccountedKept(s, events, e, w, i, cfg);
    }
    forall n | 0 <= n < |events + [e]| && Takes(s, events + [e], n, i, cfg)
      ensures Served(s, events + [e], later, ws, n, i, cfg)
    {
      if n < |events| {
        TakesBefore(s, events, e, n, i, cfg);
        StartServed(s, events, now, ws, k, ts, n, i, cfg);
      } else {
        NewServed(s, events, now, ws, k, ts, i, cfg);
      }
    }
  }

  /** In every run from rest, each write belongs to a start that took the LED, and each such start is accounted for. */
  lemma {:induction false} RunTraced(s: Four, events: seq<Event>, i: nat, cfg: Config)
    requires i < cfg.count && Idle(s)
    ensures Traced(s, events, RunSweeps(s, events, cfg).0, RunSweeps(s, events, cfg).1, i, cfg)
  {
    if events != [] {
      var n := |events| - 1;
      var before := events[..n];
      RunTraced(s, before, i, cfg);
      var (now, ws) := RunSweeps(s, before, cfg);
      assert events == before + [events[n]];
      match events[n]
      case Tick => TickTraced(s, before, now, ws, i, cfg);
      case Start(k, ts) =>
        StartTraced(s, before, now, ws, k, ts, i, cfg);
        assert ws + [] == ws;
    }
  }

  // ----- where the LEDs end -----

  /** Start `n` took LED `i`, and no start that took it is newer or overtook `n` with another time. */
  ghost predicate NewestTaker(s: Four, events: seq<Event>, n: nat, i: nat, cfg: Config)
    requires i < cfg.count && n < |events|
  {
    && Takes(s, events, n, i, cfg)
    && forall m: nat :: m < |events| && Takes(s, events, m, i, cfg) ==>
         && events[m].ts <= events[n].ts
         && (Overtakes(s, events, n, m, i, cfg) ==> events[m].ts == events[n].ts)
  }

  lemma NewestWrites(s: Four, events: seq<Event>, n: nat, i: nat, cfg: Config)
    requires i < cfg.count && n < |events| && NewestTaker(s, events, n, i, cfg)
    requires Idle(s) && Idle(RunSweeps(s, events, cfg).0)
    ensures Write(i, events[n].kind.IsOn(), events[n].ts) in RunSweeps(s, events, cfg).1
    decreases |events| - n
  {
    var (now, ws) := RunSweeps(s, events, cfg);
    RunTraced(s, events, i, cfg);
    assert Served(s, events, now, ws, n, i, cfg);
    assert !now[events[n].kind.No()].active;
    if Write(i, events[n].kind.IsOn(), events[n].ts) !in ws {
      var m: nat :| m < |events| && Overtakes(s, events, n, m, i, cfg);
      forall x: nat | x < |events| && Overtakes(s, events, m, x, i, cfg) ensures events[x].ts == events[m].ts {
        assert Overtakes(s, events, n, x, i, cfg);
      }
      NewestWrites(s, events, m, i, cfg);
    }
  }

  /** The starts that took LED `i` at the time of start `n` switch as `n` does. */
  ghost predicate TiesAgree(s: Four, events: seq<Event>, n: nat, i: nat, cfg: Config)
    requires i < cfg.count && n < |events| && events[n].Start?
  {
    forall m: nat :: m < |events| && Takes(s, events, m, i, cfg) && events[m].ts == events[n].ts ==>
                       events[m].kind.IsOn() == events[n].kind.IsOn()
  }

  /** Some start took LED `i` at this time and switches it to `on`. */
  ghost predicate Claimed(s: Four, events: seq<Event>, i: nat, on: bool, ts: nat, cfg: Config)
    requires i < cfg.count
  {
    exists m: nat, k: Kind :: Has(events, m, k, ts) && Takes(s, events, m, i, cfg) && on == k.IsOn()
  }

  /**
   An LED ends with the time of the newest start whose sweep had not passed it, restarted or not,
   in the state that the first write with this time gave it: that of a start of this very time,
   and so the newest start's own state unless such starts disagree.
   */
  lemma LedBelongsTo(s: Four, events: seq<Event>, n: nat, l: Led, i: nat, cfg: Config)
    requires i < cfg.count && n < |events| && NewestTaker(s, events, n, i, cfg) && l.ts < events[n].ts
    requires Idle(s) && Idle(RunSweeps(s, events, cfg).0)
    ensures var ws := RunSweeps(s, events, cfg).1;
            var r := After(l, ws, i);
            && r.value == l.value && r.ts == events[n].ts
            && First(ws, i, r.on, r.ts) && Claimed(s, events, i, r.on, r.ts, cfg)
            && (TiesAgree(s, events, n, i, cfg) ==> r.on == events[n].kind.IsOn())
  {
    var ws := RunSweeps(s, events, cfg).1;
    NewestWrites(s, events, n, i, cfg);
    NewestWins(l, ws, i);
    FirstOfNewestWins(l, ws, i);
    RunTraced(s, events, i, cfg);
    var r := After(l, ws, i);
    assert Accounted(s, events, Write(i, r.on, r.ts), i, cfg);
  }

  /** An LED that every start found already passed keeps its state. */
  lemma UntakenStays(s: Four, events: seq<Event>, l: Led, i: nat, cfg: Config)
    requires i < cfg.count && Idle(s) && forall n: nat :: n < |events| ==> !Takes(s, events, n, i, cfg)
    ensures After(l, RunSweeps(s, events, cfg).1, i) == l
  {
    NewestWins(l, RunSweeps(s, events, cfg).1, i);
    RunTraced(s, events, i, cfg);
  }

  /** Start times never go back, as those of a clock. */
  ghost predicate InOrder(events: seq<Event>) {
    forall m, n :: 0 <= m < n < |events| && events[m].Start? && events[n].Start? ==>
      events[m].ts <= events[n].ts
  }

  /** The last of the first `upto` events that took LED `i`, or -1. */
  function LastTaker(s: Four, events: seq<Event>, i: nat, upto: nat, cfg: Config): (n: int)
    requires i < cfg.count && upto <= |events|
    ensures -1 <= n < upto && (n >= 0 ==> Takes(s, events, n, i, cfg))
    ensures forall m: nat :: n < m < upto ==> !Takes(s, events, m, i, cfg)
  {
    if upto == 0 then -1 else if Takes(s, events, upto - 1, i, cfg) then upto - 1
        else LastTaker(s, events, i, upto - 1, cfg)
  }

  /**
   Where every LED ends after any starts in clock order, for any restarts and interleavings: with
   the time of the last start that took it, in the state that was written first with this time.
   */
  lemma LedsSettle(s: Four, events: seq<Event>, l: Led, i: nat, cfg: Config)
    requires i < cfg.count && Idle(s) && Idle(RunSweeps(s, events, cfg).0) && InOrder(events)
    requires forall e :: e in events && e.Start? ==> l.ts < e.ts
    ensures var n := LastTaker(s, events, i, |events|, cfg);
            var ws := RunSweeps(s, events, cfg).1;
            var r := After(l, ws, i);
            if n < 0 then r == l
            else
              && r.value == l.value && r.ts == events[n].ts
              && First(ws, i, r.on, r.ts) && Claimed(s, events, i, r.on, r.ts, cfg)
              && (TiesAgree(s, events, n, i, cfg) ==> r.on == events[n].kind.IsOn())
  {
    var n := LastTaker(s, events, i, |events|, cfg);
    if n < 0 {
      UntakenStays(s, events, l, i, cfg);
    } else {
      assert events[n] in events;
      LedBelongsTo(s, events, n, l, i, cfg);
    }
  }

  ghost predicate OnlyTicks(events: seq<Event>) {
    forall e :: e in events ==> e.Tick?
  }

  ghost predicate StartsBefore(events: seq<Event>, ts: nat) {
    forall e :: e in events && e.Start? ==> e.ts < ts
  }

  /**
   When the newest start is followed by ticks until all sweeps rest, every LED shows it if and
   only if the start found its own sweep's counter at zero.
   */
  lemma SweepsSettle(s: Four, pre: seq<Event>, k: Kind, ts: nat, post: seq<Event>, leds: seq<Led>, cfg: Config)
    requires cfg.count > 0 && |leds| == cfg.count && Idle(s) && OnlyTicks(post) && StartsBefore(pre, ts)
    requires Idle(RunSweeps(s, pre + [Start(k, ts)] + post, cfg).0)
    requires forall i :: 0 <= i < |leds| ==> leds[i].ts < ts
    ensures var ws := RunSweeps(s, pre + [Start(k, ts)] + post, cfg).1;
            (forall i :: 0 <= i < cfg.count ==> After(leds[i], ws, i) == Led(leds[i].value, k.IsOn(), ts))
            <==> RunSweeps(s, pre, cfg).0[k.No()].cnt == 0
  {
    hide RunSweeps, After;
    var ws := RunSweeps(s, pre + [Start(k, ts)] + post, cfg).1;
    if RunSweeps(s, pre, cfg).0[k.No()].cnt == 0 {
      forall i | 0 <= i < cfg.count ensures After(leds[i], ws, i) == Led(leds[i].value, k.IsOn(), ts) {
        LastStartShows(s, pre, k, ts, post, leds[i], i, cfg);
      }
    } else {
      var i := IndexOf(k, 0, cfg.count);
      LastStartMisses(s, pre, k, ts, post, leds[i], i, cfg);
    }
  }

  lemma OtherStart(pre: seq<Event>, k: Kind, ts: nat, post: seq<Event>, m: nat)
    requires m < |pre + [Start(k, ts)] + post| && m != |pre| && OnlyTicks(post) && StartsBefore(pre, ts)
    ensures var e := (pre + [Start(k, ts)] + post)[m]; e.Start? ==> m < |pre| && e.ts < ts
  {
    var events := pre + [Start(k, ts)] + post;
    if m < |pre| {
      assert events[m] == pre[m] && pre[m] in pre;
    } else {
      assert events[m] == post[m - |pre| - 1] && post[m - |pre| - 1] in post;
    }
  }

  lemma LastFound(s: Four, pre: seq<Event>, k: Kind, ts: nat, post: seq<Event>, cfg: Config)
    requires cfg.count > 0
    ensures Found(s, pre + [Start(k, ts)] + post, |pre|, k, cfg) == RunSweeps(s, pre, cfg).0[k.No()]
  {
    assert (pre + [Start(k, ts)] + post)[..|pre|] == pre;
  }

  lemma LastStartTakes(s: Four, pre: seq<Event>, k: Kind, ts: nat, post: seq<Event>, i: nat, cfg: Config)
    requires i < cfg.count && OnlyTicks(post) && StartsBefore(pre, ts) && RunSweeps(s, pre, cfg).0[k.No()].cnt == 0
    ensures NewestTaker(s, pre + [Start(k, ts)] + post, |pre|, i, cfg)
    ensures TiesAgree(s, pre + [Start(k, ts)] + post, |pre|, i, cfg)
  {
    var events := pre + [Start(k, ts)] + post;
    LastFound(s, pre, k, ts, post, cfg);
    forall m: nat | m < |events| && m != |pre| && events[m].Start? ensures m < |pre| && events[m].ts < ts {
      OtherStart(pre, k, ts, post, m);
    }
  }

  lemma LastStartShows(s: Four, pre: seq<Event>, k: Kind, ts: nat, post: seq<Event>, l: Led, i: nat, cfg: Config)
    requires i < cfg.count && OnlyTicks(post) && StartsBefore(pre, ts) && RunSweeps(s, pre, cfg).0[k.No()].cnt == 0
    requires Idle(s) && Idle(RunSweeps(s, pre + [Start(k, ts)] + post, cfg).0) && l.ts < ts
    ensures After(l, RunSweeps(s, pre + [Start(k, ts)] + post, cfg).1, i) == Led(l.value, k.IsOn(), ts)
  {
    hide RunSweeps, After, NewestTaker, TiesAgree;
    LastStartTakes(s, pre, k, ts, post, i, cfg);
    LedBelongsTo(s, pre + [Start(k, ts)] + post, |pre|, l, i, cfg);
  }

  lemma LastStartMisses(s: Four, pre: seq<Event>, k: Kind, ts: nat, post: seq<Event>, l: Led, i: nat, cfg: Config)
    requires cfg.count > 0 && i == IndexOf(k, 0, cfg.count) && Idle(s) && OnlyTicks(post) && StartsBefore(pre, ts)
    requires l.ts < ts && RunSweeps(s, pre, cfg).0[k.No()].cnt > 0
    ensures After(l, RunSweeps(s, pre + [Start(k, ts)] + post, cfg).1, i).ts < ts
  {
    var events := pre + [Start(k, ts)] + post;
    var ws := RunSweeps(s, events, cfg).1;
    LastFound(s, pre, k, ts, post, cfg);
    NewestWins(l, ws, i);
    RunTraced(s, events, i, cfg);
    var r := After(l, ws, i);
    if r != l {
      assert Accounted(s, events, Write(i, r.on, r.ts), i, cfg);
      var m: nat, j: Kind :| Has(events, m, j, r.ts) && Takes(s, events, m, i, cfg) && r.on == j.IsOn();
      OtherStart(pre, k, ts, post, m);
    }
  }

  /** No sweep is started while it is running. */
  ghost predicate NotRestarted(s: Four, events: seq<Event>, cfg: Config)
    requires cfg.count > 0
  {
    forall n: nat :: n < |events| && events[n].Start? ==> !Found(s, events, n, events[n].kind, cfg).active
  }

  /** Without restarts the newest start has every LED, in whatever order the starts came. */
  lemma UndisturbedSettle(s: Four, events: seq<Event>, n: nat, l: Led, i: nat, cfg: Config)
    requires i < cfg.count && Idle(s) && Idle(RunSweeps(s, events, cfg).0) && NotRestarted(s, events, cfg)
    requires n < |events| && events[n].Start? && l.ts < events[n].ts
    requires forall e :: e in events && e.Start? ==>
               e.ts <= events[n].ts && (e.ts == events[n].ts ==> e.kind.IsOn() == events[n].kind.IsOn())
    ensures After(l, RunSweeps(s, events, cfg).1, i) == Led(l.value, events[n].kind.IsOn(), events[n].ts)
  {
    RunTraced(s, events[..n], i, cfg);
    assert Running(s, events[..n], RunSweeps(s, events[..n], cfg).0, events[n].kind, cfg);
    assert forall m: nat :: m < |events| ==> events[m] in events;
    LedBelongsTo(s, events, n, l, i, cfg);
  }
}
