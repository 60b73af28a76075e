/**
 The LED strip: every LED keeps the state written by the newest event, whatever order the
 writes arrive in, and a refresh fades its brightness towards that state.
 */
module Leds {

  datatype Led = Led(value: nat, on: bool, ts: nat)

  /** One call of stairway_leds_set_state. */
  datatype Write = Write(index: nat, on: bool, ts: nat)

  datatype Status = Success | ParamInvalid

  function Apply(l: Led, on: bool, ts: nat): Led {
    if l.ts < ts then l.(on := on, ts := ts) else l
  }

  /** LED `i` after a list of writes in order. */
  function After(l: Led, writes: seq<Write>, i: nat): Led {
    if writes == [] then l
    else
      var w := writes[|writes| - 1];
      var l' := After(l, writes[..|writes| - 1], i);
      if w.index == i then Apply(l', w.on, w.ts) else l'
  }

  /** The newest write wins: no write to the LED is newer than its state, which one of them (or nobody) set. */
  lemma {:induction false} NewestWins(l: Led, writes: seq<Write>, i: nat)
    ensures var r := After(l, writes, i);
            && r.ts >= l.ts && r.value == l.value
            && (forall w :: w in writes && w.index == i ==> w.ts <= r.ts)
            && (r == l || (r.ts > l.ts && Write(i, r.on, r.ts) in writes))
  {
    if writes != [] {
      var n := |writes| - 1;
      NewestWins(l, writes[..n], i);
      assert writes == writes[..n] + [writes[n]];
    }
  }

  /** The first write to LED `i` with time `ts` switches it to `on`. */
  ghost predicate First(writes: seq<Write>, i: nat, on: bool, ts: nat) {
    exists j :: 0 <= j < |writes| && writes[j] == Write(i, on, ts) && NoneBefore(writes, i, ts, j)
  }

  ghost predicate NoneBefore(writes: seq<Write>, i: nat, ts: nat, j: nat)
    requires j <= |writes|
  {
    forall k :: 0 <= k < j ==> !(writes[k].index == i && writes[k].ts == ts)
  }

  /** Among writes of the same newest time the first one stays, whatever the others say. */
  lemma {:induction false} FirstOfNewestWins(l: Led, writes: seq<Write>, i: nat)
    ensures var r := After(l, writes, i);
            if r.ts == l.ts then r == l && forall w :: w in writes && w.index == i ==> w.ts <= l.ts
            else First(writes, i, r.on, r.ts) && forall w :: w in writes && w.index == i ==> w.ts <= r.ts
  {
    NewestWins(l, writes, i);
    if writes != [] {
      var n := |writes| - 1;
      var before := writes[..n];
      FirstOfNewestWins(l, before, i);
      NewestWins(l, before, i);
      var q, r := After(l, before, i), After(l, writes, i);
      if q == r {
        if r.ts != l.ts {
          var j :| 0 <= j < n && before[j] == Write(i, r.on, r.ts) && NoneBefore(before, i, r.ts, j);
          assert writes[j] == Write(i, r.on, r.ts) && NoneBefore(writes, i, r.ts, j);
        }
      } else {
        assert writes[n] == Write(i, r.on, r.ts);
        forall k | 0 <= k < n ensures !(writes[k].index == i && writes[k].ts == r.ts) {
          assert before[k] in before;
        }
        assert NoneBefore(writes, i, r.ts, n);
      }
    }
  }

  /** No two writes to LED `i` carry the same time and different states. */
  ghost predicate DistinctTimes(writes: seq<Write>, i: nat) {
    forall v, w :: v in writes && w in writes && v.index == i && w.index == i && v.ts == w.ts ==> v.on == w.on
  }

  /** Writes may be reordered, repeated or interleaved at will: the outcome depends on the set alone. */
  lemma OrderIndependent(l: Led, writes: seq<Write>, other: seq<Write>, i: nat)
    requires forall w: Write :: w.index == i ==> (w in writes <==> w in other)
    requires DistinctTimes(writes, i)
    ensures After(l, writes, i) == After(l, other, i)
  {
    NewestWins(l, writes, i);
    NewestWins(l, other, i);
    var r, q := After(l, writes, i), After(l, other, i);
    if r != l {
      assert Write(i, r.on, r.ts) in other;
    }
    if q != l {
      assert Write(i, q.on, q.ts) in writes;
    }
  }

  lemma {:induction false} AfterConcat(l: Led, a: seq<Write>, b: seq<Write>, i: nat)
    ensures After(l, a + b, i) == After(After(l, a, i), b, i)
  {
    if b == [] {
      assert a + b == a;
    } else {
      assert (a + b)[..|a + b| - 1] == a + b[..|b| - 1];
      AfterConcat(l, a, b[..|b| - 1], i);
    }
  }

  // ----- fading -----

  /** The brightness settings, all of them bytes in the source. */
  datatype Fading = Fading(onValue: nat, offValue: nat, onStep: nat, offStep: nat)

  predicate ValidFading(f: Fading) {
    f.onValue < 256 && f.offValue < 256 && 0 < f.onStep < 256 && 0 < f.offStep < 256
  }

  /** The brightness of an LED after one refresh; `emergency` is whether it is part of a lit emergency zone. */
  function Fade(v: nat, on: bool, emergency: bool, f: Fading): nat {
    if (on && v != f.onValue) || emergency then (if v + f.onStep > f.onValue then f.onValue else v + f.onStep)
    else if !on && v != f.offValue then (if v < f.offValue + f.offStep then f.offValue else v - f.offStep)
    else v
  }

  function FadeTimes(v: nat, on: bool, emergency: bool, f: Fading, n: nat): nat {
    if n == 0 then v else Fade(FadeTimes(v, on, emergency, f, n - 1), on, emergency, f)
  }

  lemma {:induction false} FadeUp(v: nat, on: bool, emergency: bool, f: Fading, n: nat)
    requires ValidFading(f) && (on || emergency)
    ensures FadeTimes(v, on, emergency, f, n) ==
            if n == 0 then v else if v + n * f.onStep >= f.onValue then f.onValue else v + n * f.onStep
  {
    if n > 0 {
      FadeUp(v, on, emergency, f, n - 1);
      assert n * f.onStep == (n - 1) * f.onStep + f.onStep;
    }
  }

  lemma {:induction false} FadeDown(v: nat, f: Fading, n: nat)
    requires ValidFading(f)
    ensures FadeTimes(v, false, false, f, n) ==
            if n == 0 then v else if v <= f.offValue + n * f.offStep then f.offValue else v - n * f.offStep
  {
    if n > 0 {
      FadeDown(v, f, n - 1);
      assert n * f.offStep == (n - 1) * f.offStep + f.offStep;
    }
  }

  lemma AtLeast(n: nat, step: nat)
    requires step > 0
    ensures n * step >= n
  {
  }

  /**
   Whatever its brightness, an LED reaches its target within 255 refreshes and stays there; a
   byte never overflows.
   */
  lemma FadeSettles(v: nat, on: bool, emergency: bool, f: Fading, n: nat)
    requires ValidFading(f) && v < 256
    ensures FadeTimes(v, on, emergency, f, n) < 256
    ensures n >= 255 ==> FadeTimes(v, on, emergency, f, n) == if on || emergency then f.onValue else f.offValue
  {
    if on || emergency {
      FadeUp(v, on, emergency, f, n);
      AtLeast(n, f.onStep);
    } else {
      FadeDown(v, f, n);
      AtLeast(n, f.offStep);
    }
  }

  // ----- the strip -----

  datatype Zone = Zone(lit: bool, size: nat)

  predicate InZone(i: nat, count: nat, up: Zone, down: Zone) {
    (down.lit && i < down.size) || (up.lit && i + up.size >= count)
  }

  /** The lower zone is the first LEDs of the strip and the upper one the last, each while it is lit. */
  lemma ZoneEnds(i: nat, count: nat, up: Zone, down: Zone)
    requires i < count
    ensures !up.lit && !down.lit ==> !InZone(i, count, up, down)
    ensures down.lit && !up.lit ==> (InZone(i, count, up, down) <==> i < down.size)
    ensures up.lit && !down.lit ==> (InZone(i, count, up, down) <==> count - 1 - i < up.size)
    ensures up.lit && down.lit ==> (InZone(i, count, up, down) <==> i < down.size || count - 1 - i < up.size)
  {
  }

  class Strip {
    var buf: array<Led>
    var emergencyUp: bool
    var emergencyDown: bool

    constructor (count: nat)
      ensures fresh(buf) && buf.Length == count && !emergencyUp && !emergencyDown
      ensures forall i :: 0 <= i < count ==> buf[i] == Led(0, false, 0)
    {
      buf := new Led[count](_ => Led(0, false, 0));
      emergencyUp, emergencyDown := false, false;
    }

    /** stairway_leds_set_state. */
    method SetState(index: nat, on: bool, eventTs: nat) returns (status: Status)
      modifies buf
      ensures status == if index < buf.Length then Success else ParamInvalid
      ensures forall i :: 0 <= i < buf.Length ==> buf[i] == After(old(buf[i]), [Write(index, on, eventTs)], i)
    {
      if index >= buf.Length {
        return ParamInvalid;
      }
      if buf[index].ts < eventTs {
        buf[index] := buf[index].(on := on, ts := eventTs);
      }
      assert [Write(index, on, eventTs)][..0] == [];
      status := Success;
    }

    /** stairway_leds_resize: a changed LED count starts a dark strip. */
    method Resize(count: nat)
      modifies this
      ensures fresh(buf) && buf.Length == count
      ensures forall i :: 0 <= i < count ==> buf[i] == Led(0, false, 0)
      ensures emergencyUp == old(emergencyUp) && emergencyDown == old(emergencyDown)
    {
      buf := new Led[count](_ => Led(0, false, 0));
    }

    /** The loop of stairway_leds_refresh. */
    method Refresh(f: Fading, sizeUp: nat, sizeDown: nat) returns (updated: bool)
      requires ValidFading(f)
      requires forall i :: 0 <= i < buf.Length ==> buf[i].value < 256
      modifies buf
      ensures forall i :: 0 <= i < buf.Length ==>
                var em := InZone(i, buf.Length, Zone(emergencyUp, sizeUp), Zone(emergencyDown, sizeDown));
                buf[i] == old(buf[i]).(value := Fade(old(buf[i].value), old(buf[i].on), em, f)) && buf[i].value < 256
      ensures !updated ==> forall i :: 0 <= i < buf.Length ==> buf[i] == old(buf[i])
    {
      updated := false;
      var i := 0;
      while i < buf.Length
        invariant i <= buf.Length
        invariant forall j :: i <= j < buf.Length ==> buf[j] == old(buf[j])
        invariant forall j :: 0 <= j < i ==>
                    var em := InZone(j, buf.Length, Zone(emergencyUp, sizeUp), Zone(emergencyDown, sizeDown));
                    buf[j] == old(buf[j]).(value := Fade(old(buf[j].value), old(buf[j].on), em, f))
                        && buf[j].value < 256
        invariant !updated ==> forall j :: 0 <= j < i ==> buf[j] == old(buf[j])
      {
        var l := buf[i];
        if (l.on && l.value != f.onValue)
           || (emergencyDown && i < sizeDown)
           || (emergencyUp && i + sizeUp >= buf.Length)
        {
          var temp := l.value + f.onStep;
          buf[i] := l.(value := if temp > f.onValue then f.onValue else temp);
          updated := true;
        } else if !l.on && l.value != f.offValue {
          var temp := l.value - f.offStep;
          buf[i] := l.(value := if temp < f.offValue then f.offValue else temp);
          updated := true;
        }
        i := i + 1;
      }
    }
  }
}
