/**
 The four sweeps that switch the stairway's LEDs on and off one after another, each with its
 own direction, counter and timestamp, all advanced by the same periodic tick.
 */
module Sweeps {
  import opened Leds

  datatype Kind = OnUp | OffUp | OnDown | OffDown {
    function No(): (n: nat)
      ensures n < 4
    {
      match this
      case OnUp => 0
      case OffUp => 1
      case OnDown => 2
      case OffDown => 3
    }

    predicate IsOn() { OnUp? || OnDown? }
  }

  datatype Sweep = Sweep(active: bool, cnt: nat, ts: nat)

  /** The settings a sweep depends on; validated settings have at least one LED. */
  datatype Config = Config(count: nat, useEmergency: bool, sizeUp: nat, sizeDown: nat)

  type Four = s: seq<Sweep> | |s| == 4 witness seq(4, _ => Sweep(false, 0, 0))

  /** The LED a sweep writes at counter `c`: up-on and down-off run from the far end. */
  function IndexOf(k: Kind, c: nat, count: nat): nat
    requires c < count
  {
    if k.OnUp? || k.OffDown? then count - c - 1 else c
  }

  /** How many LEDs of an emergency zone an on-sweep writes ahead in its first tick. */
  function Head(k: Kind, cfg: Config): nat
    requires cfg.count > 0
  {
    if !k.IsOn() || !cfg.useEmergency then 0
    else
      var size := if k.OnUp? then cfg.sizeUp else cfg.sizeDown;
      if size < cfg.count - 1 then size else cfg.count - 1
  }

  /** The writes of a sweep between two counter values. */
  function Writes(k: Kind, ts: nat, from: nat, to: nat, cfg: Config): (ws: seq<Write>)
    requires from <= to <= cfg.count
    ensures |ws| == to - from
  {
    seq(to - from, j requires 0 <= j < to - from => Write(IndexOf(k, from + j, cfg.count), k.IsOn(), ts))
  }

  /** One tick of one sweep: its new state and the LED writes it makes. */
  function Advance(k: Kind, s: Sweep, cfg: Config): (r: (Sweep, seq<Write>))
    requires cfg.count > 0
  {
    if !s.active then (s, [])
    else if s.cnt < cfg.count then
      var to := (if s.cnt < Head(k, cfg) then Head(k, cfg) else s.cnt) + 1;
      (s.(cnt := to), Writes(k, s.ts, s.cnt, to, cfg))
    else (Sweep(false, 0, s.ts), [])
  }

  /** A detector event starts a sweep, unless the sweep has written every LED and not yet wound up. */
  function Trigger(s: Sweep, now: nat, cfg: Config): Sweep {
    if s.cnt != cfg.count then s.(active := true, ts := now) else s
  }

  ghost predicate ValidSweep(s: Sweep, cfg: Config) {
    s.cnt <= cfg.count && (!s.active ==> s.cnt == 0)
  }

  /** The counter stays within the LED count and is zero whenever the sweep is not running. */
  lemma SweepStaysValid(k: Kind, s: Sweep, now: nat, cfg: Config)
    requires cfg.count > 0 && ValidSweep(s, cfg)
    ensures ValidSweep(Advance(k, s, cfg).0, cfg) && ValidSweep(Trigger(s, now, cfg), cfg)
  {
  }

  // ----- one undisturbed sweep -----

  function Ticks(k: Kind, s: Sweep, n: nat, cfg: Config): (r: (Sweep, seq<Write>))
    requires cfg.count > 0
  {
    if n == 0 then (s, [])
    else
      var (s', ws) := Ticks(k, s, n - 1, cfg);
      var (s'', ws') := Advance(k, s', cfg);
      (s'', ws + ws')
  }

  lemma {:induction false} SweepProgress(k: Kind, ts: nat, n: nat, cfg: Config)
    requires cfg.count > 0 && 0 < n <= cfg.count - Head(k, cfg)
    ensures var r := Ticks(k, Sweep(true, 0, ts), n, cfg);
            r.0 == Sweep(true, Head(k, cfg) + n, ts) && r.1 == Writes(k, ts, 0, Head(k, cfg) + n, cfg)
  {
    if n > 1 {
      SweepProgress(k, ts, n - 1, cfg);
      var h := Head(k, cfg) + n;
      assert Writes(k, ts, 0, h - 1, cfg) + Writes(k, ts, h - 1, h, cfg) == Writes(k, ts, 0, h, cfg);
    } else {
      assert Ticks(k, Sweep(true, 0, ts), 0, cfg) == (Sweep(true, 0, ts), []);
    }
  }

  /** The counter at which a sweep writes LED `i`. */
  function CounterOf(k: Kind, i: nat, count: nat): nat
    requires i < count
  {
    if k.OnUp? || k.OffDown? then count - i - 1 else i
  }

  /**
   Coverage and termination: a sweep that is not triggered again writes every LED exactly once,
   in order, and winds up in exactly count + 1 ticks, less the length of its head start.
   */
  lemma SweepCovers(k: Kind, ts: nat, n: nat, cfg: Config)
    requires cfg.count > 0
    ensures var last := cfg.count - Head(k, cfg) + 1;
            && Ticks(k, Sweep(true, 0, ts), last, cfg) == (Sweep(false, 0, ts), Writes(k, ts, 0, cfg.count, cfg))
            && (n < last ==> Ticks(k, Sweep(true, 0, ts), n, cfg).0.active)
    ensures forall i: nat :: i < cfg.count ==>
              CounterOf(k, i, cfg.count) < cfg.count
                  && Writes(k, ts, 0, cfg.count, cfg)[CounterOf(k, i, cfg.count)].index == i
    ensures forall c: nat :: c < cfg.count ==>
              CounterOf(k, IndexOf(k, c, cfg.count), cfg.count) == c
  {
    var last := cfg.count - Head(k, cfg);
    SweepProgress(k, ts, last, cfg);
    assert Writes(k, ts, 0, cfg.count, cfg) + [] == Writes(k, ts, 0, cfg.count, cfg);
    if 0 < n <= last {
      SweepProgress(k, ts, n, cfg);
    }
  }

  /** The LEDs that an on sweep of an emergency zone lights in its first tick, but never all of them. */
  function ZoneFirst(k: Kind, cfg: Config): int {
    var size := if k.OnUp? then cfg.sizeUp else cfg.sizeDown;
    if cfg.useEmergency && (k.OnUp? || k.OnDown?) then (if size < cfg.count then size else cfg.count - 1) else 0
  }

  /**
   The order of a sweep: on sweeps light the LEDs from the end at which somebody enters, and off
   sweeps darken them from the end opposite to the one at which the last one leaves, one LED a
   tick after those of the zone.
   */
  lemma SweepOrder(k: Kind, ts: nat, n: nat, j: nat, cfg: Config)
    requires cfg.count > 0 && 0 < n <= cfg.count - ZoneFirst(k, cfg)
    ensures var ws := Ticks(k, Sweep(true, 0, ts), n, cfg).1;
            && |ws| == ZoneFirst(k, cfg) + n
            && (j < |ws| ==>
                  ws[j] == match k
                           case OnUp => Write(cfg.count - 1 - j, true, ts)
                           case OnDown => Write(j, true, ts)
                           case OffUp => Write(j, false, ts)
                           case OffDown => Write(cfg.count - 1 - j, false, ts))
  {
    SweepProgress(k, ts, n, cfg);
  }

  // ----- any interleaving of the four -----

  datatype Event = Tick | Start(kind: Kind, ts: nat)

  function TickAll(s: Four, cfg: Config): (r: (Four, seq<Write>))
    requires cfg.count > 0
  {
    var a := Advance(OnUp, s[0], cfg);
    var b := Advance(OffUp, s[1], cfg);
    var c := Advance(OnDown, s[2], cfg);
    var d := Advance(OffDown, s[3], cfg);
    ([a.0, b.0, c.0, d.0], a.1 + b.1 + c.1 + d.1)
  }

  function StepSweeps(s: Four, e: Event, cfg: Config): (r: (Four, seq<Write>))
    requires cfg.count > 0
  {
    match e
    case Tick => TickAll(s, cfg)
    case Start(k, ts) => (s[k.No() := Trigger(s[k.No()], ts, cfg)], [])
  }

  function RunSweeps(s: Four, events: seq<Event>, cfg: Config): (r: (Four, seq<Write>))
    requires cfg.count > 0
  {
    if events == [] then (s, [])
    else
      var (s', ws) := RunSweeps(s, events[..|events| - 1], cfg);
      var (s'', ws') := StepSweeps(s', events[|events| - 1], cfg);
      (s'', ws + ws')
  }

  ghost predicate Idle(s: Four) {
    forall i :: 0 <= i < 4 ==> !s[i].active && s[i].cnt == 0
  }

  lemma AdvanceWrites(k: Kind, s: Sweep, cfg: Config)
    requires cfg.count > 0
    ensures forall w :: w in Advance(k, s, cfg).1 ==> s.active && w.ts == s.ts && w.on == k.IsOn()
  {
  }

  lemma TickAt(s: Four, k: Kind, cfg: Config)
    requires cfg.count > 0
    ensures TickAll(s, cfg).0[k.No()] == Advance(k, s[k.No()], cfg).0
    ensures forall w :: w in Advance(k, s[k.No()], cfg).1 ==> w in TickAll(s, cfg).1
  {
  }

  lemma TickWritesFrom(s: Four, w: Write, cfg: Config)
    requires cfg.count > 0 && w in TickAll(s, cfg).1
    ensures exists k: Kind :: w in Advance(k, s[k.No()], cfg).1
  {
    assert OnUp.No() == 0 && OffUp.No() == 1 && OnDown.No() == 2 && OffDown.No() == 3;
    assert w in Advance(OnUp, s[OnUp.No()], cfg).1 || w in Advance(OffUp, s[OffUp.No()], cfg).1
        || w in Advance(OnDown, s[OnDown.No()], cfg).1 || w in Advance(OffDown, s[OffDown.No()], cfg).1;
  }

  /** Without any start the strip is left alone. */
  lemma {:induction false} NoStartNoWrites(s: Four, events: seq<Event>, cfg: Config)
    requires cfg.count > 0 && Idle(s) && forall e :: e in events ==> e.Tick?
    ensures RunSweeps(s, events, cfg) == (s, [])
  {
    if events != [] {
      NoStartNoWrites(s, events[..|events| - 1], cfg);
      assert events[|events| - 1] in events;
      assert TickAll(s, cfg).0 == [s[0], s[1], s[2], s[3]] == s && TickAll(s, cfg).1 == [];
    }
  }

  lemma {:induction false} RunSweepsConcat(s: Four, a: seq<Event>, b: seq<Event>, cfg: Config)
    requires cfg.count > 0
    ensures RunSweeps(s, a + b, cfg).0 == RunSweeps(RunSweeps(s, a, cfg).0, b, cfg).0
    ensures RunSweeps(s, a + b, cfg).1 == RunSweeps(s, a, cfg).1 + RunSweeps(RunSweeps(s, a, cfg).0, b, cfg).1
  {
    hide StepSweeps;
    var ws := RunSweeps(s, a, cfg).1;
    if b == [] {
      assert a + b == a && ws + [] == ws;
    } else {
      var n := |b| - 1;
      assert (a + b)[..|a| + n] == a + b[..n];
      RunSweepsConcat(s, a, b[..n], cfg);
      var (s', more) := RunSweeps(RunSweeps(s, a, cfg).0, b[..n], cfg);
      assert ws + (more + StepSweeps(s', b[n], cfg).1) == ws + more + StepSweeps(s', b[n], cfg).1;
    }
  }

  // ----- the tick as the main loop runs it -----

  class Lights {
    var sweeps: Four
    const strip: Strip

    constructor (strip: Strip)
      ensures Idle(sweeps) && this.strip == strip
    {
      var idle := Sweep(false, 0, 0);
      sweeps := [idle, idle, idle, idle];
      this.strip := strip;
    }

    /** One of the four blocks of the tick. */
    method AdvanceSweep(k: Kind, s: Sweep, cfg: Config) returns (s': Sweep)
      requires cfg.count > 0
      modifies strip.buf
      ensures s' == Advance(k, s, cfg).0
      ensures forall i :: 0 <= i < strip.buf.Length ==>
              strip.buf[i] == After(old(strip.buf[i]), Advance(k, s, cfg).1, i)
    {
      s' := s;
      if !s.active {
        return;
      }
      if s'.cnt < cfg.count {
        ghost var none := Writes(k, s.ts, s.cnt, s.cnt, cfg);
        if k.IsOn() && cfg.useEmergency {
          var size := if k.OnUp? then cfg.sizeUp else cfg.sizeDown;
          while s'.cnt < size && s'.cnt < cfg.count - 1
            invariant s.cnt <= s'.cnt < cfg.count && s' == s.(cnt := s'.cnt)
            invariant s'.cnt <= size || s'.cnt == s.cnt
            invariant forall i :: 0 <= i < strip.buf.Length ==>
                        strip.buf[i] == After(old(strip.buf[i]), Writes(k, s.ts, s.cnt, s'.cnt, cfg), i)
          {
            s' := WriteOne(k, s, s', cfg, old(strip.buf[..]));
          }
        }
        s' := WriteOne(k, s, s', cfg, old(strip.buf[..]));
      } else {
        s' := Sweep(false, 0, s.ts);
      }
    }

    method WriteOne(k: Kind, ghost s: Sweep, at: Sweep, cfg: Config, ghost before: seq<Led>) returns (s': Sweep)
      requires s.cnt <= at.cnt < cfg.count && at == s.(cnt := at.cnt)
      requires |before| == strip.buf.Length
      requires forall i :: 0 <= i < strip.buf.Length ==>
                 strip.buf[i] == After(before[i], Writes(k, s.ts, s.cnt, at.cnt, cfg), i)
      modifies strip.buf
      ensures s' == at.(cnt := at.cnt + 1)
      ensures forall i :: 0 <= i < strip.buf.Length ==>
                strip.buf[i] == After(before[i], Writes(k, s.ts, s.cnt, s'.cnt, cfg), i)
    {
      ghost var done := Writes(k, s.ts, s.cnt, at.cnt, cfg);
      ghost var w := Write(IndexOf(k, at.cnt, cfg.count), k.IsOn(), at.ts);
      var _ := strip.SetState(IndexOf(k, at.cnt, cfg.count), k.IsOn(), at.ts);
      s' := at.(cnt := at.cnt + 1);
      assert Writes(k, s.ts, s.cnt, s'.cnt, cfg) == done + [w];
      forall i | 0 <= i < strip.buf.Length
        ensures strip.buf[i] == After(before[i], done + [w], i)
      {
        AfterConcat(before[i], done, [w], i);
      }
    }

    /** The part of the main loop that runs once per leds_time_interval. */
    method RunTick(cfg: Config)
      requires cfg.count > 0
      modifies this, strip.buf
      ensures (sweeps, TickAll(old(sweeps), cfg).1) == TickAll(old(sweeps), cfg)
      ensures forall i :: 0 <= i < strip.buf.Length ==>
                strip.buf[i] == After(old(strip.buf[i]), TickAll(old(sweeps), cfg).1, i)
    {
      var a := AdvanceSweep(OnUp, sweeps[0], cfg);
      var b := AdvanceSweep(OffUp, sweeps[1], cfg);
      var c := AdvanceSweep(OnDown, sweeps[2], cfg);
      var d := AdvanceSweep(OffDown, sweeps[3], cfg);
      ghost var wa, wb := Advance(OnUp, sweeps[0], cfg).1, Advance(OffUp, sweeps[1], cfg).1;
      ghost var wc, wd := Advance(OnDown, sweeps[2], cfg).1, Advance(OffDown, sweeps[3], cfg).1;
      forall i | 0 <= i < strip.buf.Length
        ensures strip.buf[i] == After(old(strip.buf[i]), wa + wb + wc + wd, i)
      {
        AfterConcat(old(strip.buf[i]), wa + wb + wc, wd, i);
        AfterConcat(old(strip.buf[i]), wa + wb, wc, i);
        AfterConcat(old(strip.buf[i]), wa, wb, i);
      }
      sweeps := [a, b, c, d];
    }
  }
}
