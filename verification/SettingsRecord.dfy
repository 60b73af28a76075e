/**
 The settings record: the fields that the web page can read and write, in the order of its
 table, and the state of the access point. Strings are the characters before the first zero.
 */
module SettingsRecord {
  import opened Common
  import Leds
  import Sweeps

  datatype FieldType = U32 | U16 | U8 | Bool | Text(capacity: nat, secret: bool)

  datatype Value = Num(n: nat) | Flag(b: bool) | Str(s: string)

  const FIELDS: nat := 23
  const SSID_MAX_LEN: nat := 33
  const PASS_MIN_LEN: nat := 8
  const PASS_MAX_LEN: nat := 64
  const LED_COUNT_MAX: nat := 1000

  const LIGHT_DAY: nat := 1
  const LIGHT_NIGHT: nat := 2
  const LED_COUNT: nat := 10
  const LED_ON_VALUE: nat := 13
  const LED_OFF_VALUE: nat := 14
  const LED_ON_STEP: nat := 15
  const LED_OFF_STEP: nat := 16
  const EMERGENCY_DOWN: nat := 18
  const EMERGENCY_UP: nat := 19
  const SSID: nat := 21
  const PASS: nat := 22

  function Name(i: nat): string
    requires i < FIELDS
  {
    if i == 0 then "use_light_sensor"
    else if i == 1 then "light_sensor_day"
    else if i == 2 then "light_sensor_night"
    else if i == 3 then "dist_trigger_down_first"
    else if i == 4 then "dist_trigger_down_second"
    else if i == 5 then "sensor_down_swap"
    else if i == 6 then "dist_trigger_up_first"
    else if i == 7 then "dist_trigger_up_second"
    else if i == 8 then "sensor_up_swap"
    else if i == 9 then "sensor_debouce_time"
    else if i == 10 then "led_count"
    else if i == 11 then "leds_time_interval"
    else if i == 12 then "leds_off_timeout"
    else if i == 13 then "led_on_value"
    else if i == 14 then "led_off_value"
    else if i == 15 then "led_on_step"
    else if i == 16 then "led_off_step"
    else if i == 17 then "use_emergency"
    else if i == 18 then "emergency_cnt_down"
    else if i == 19 then "emergency_cnt_up"
    else if i == 20 then "emergency_block_ms"
    else if i == 21 then "wifi_ssid"
    else "wifi_pass"
  }

  function Type(i: nat): FieldType
    requires i < FIELDS
  {
    if i == 21 then Text(SSID_MAX_LEN, false)
    else if i == 22 then Text(PASS_MAX_LEN, true)
    else if i in {0, 5, 8, 17} then Bool
    else if i in {3, 4, 6, 7} then U16
    else if i in {13, 14, 15, 16} then U8
    else U32
  }

  function Max(t: FieldType): nat {
    match t
    case U16 => 0xffff
    case U8 => 0xff
    case _ => 0xffff_ffff
  }

  /** A character array without a terminator counts as a string that fills it. */
  predicate HasType(v: Value, t: FieldType) {
    match t
    case Bool => v.Flag?
    case Text(capacity, _) => v.Str? && NoZero(v.s) && |v.s| <= capacity
    case _ => v.Num? && v.n <= Max(t)
  }

  /** An entry of the settings table. */
  datatype Field = Field(name: string, ty: FieldType)

  /** The settings_map of the web page. */
  function Table(): (t: seq<Field>)
    ensures |t| == FIELDS
  {
    seq(FIELDS, i requires 0 <= i < FIELDS => Field(Name(i), Type(i)))
  }

  predicate Typed(f: seq<Value>, t: seq<Field>) {
    |f| == |t| && forall i :: 0 <= i < |t| ==> HasType(f[i], t[i].ty)
  }

  datatype Settings = Settings(fields: seq<Value>, apState: bool)

  /** The fields that the checks look at have the right kind. */
  predicate Shaped(f: seq<Value>) {
    && |f| == FIELDS
    && f[LIGHT_DAY].Num? && f[LIGHT_NIGHT].Num? && f[LED_COUNT].Num? && f[LED_ON_STEP].Num? && f[LED_OFF_STEP].Num?
    && f[EMERGENCY_DOWN].Num? && f[EMERGENCY_UP].Num? && f[SSID].Str? && f[PASS].Str?
  }

  lemma TypedIsShaped(f: seq<Value>)
    requires Typed(f, Table())
    ensures Shaped(f)
  {
    var t := Table();
    assert HasType(f[LIGHT_DAY], t[LIGHT_DAY].ty) && HasType(f[LIGHT_NIGHT], t[LIGHT_NIGHT].ty);
    assert HasType(f[LED_COUNT], t[LED_COUNT].ty) && HasType(f[LED_ON_STEP], t[LED_ON_STEP].ty);
    assert HasType(f[LED_OFF_STEP], t[LED_OFF_STEP].ty) && HasType(f[EMERGENCY_DOWN], t[EMERGENCY_DOWN].ty);
    assert HasType(f[EMERGENCY_UP], t[EMERGENCY_UP].ty);
    assert HasType(f[SSID], t[SSID].ty) && HasType(f[PASS], t[PASS].ty);
  }

  /** Settings the device may run with: index-safe LED counts, a fade that ends, and credentials WPA2 accepts. */
  predicate Acceptable(f: seq<Value>) {
    && Shaped(f)
    && 0 < f[LED_COUNT].n <= LED_COUNT_MAX
    && f[EMERGENCY_UP].n <= f[LED_COUNT].n && f[EMERGENCY_DOWN].n <= f[LED_COUNT].n
    && 0 < f[LED_ON_STEP].n && 0 < f[LED_OFF_STEP].n
    && f[LIGHT_NIGHT].n <= f[LIGHT_DAY].n
    && 0 < |f[SSID].s| < SSID_MAX_LEN
    && PASS_MIN_LEN <= |f[PASS].s| < PASS_MAX_LEN
  }

  /**
   What the firmware builds from accepted settings is fit for it: the fades end, the strip has an
   LED, the emergency zones lie within it, and switching with the light has a hysteresis that
   is not inverted.
   */
  lemma AcceptedIsUsable(f: seq<Value>)
    requires Typed(f, Table()) && Acceptable(f)
    ensures Shaped(f) && f[LED_ON_VALUE].Num? && f[LED_OFF_VALUE].Num?
    ensures Leds.ValidFading(
              Leds.Fading(f[LED_ON_VALUE].n, f[LED_OFF_VALUE].n, f[LED_ON_STEP].n, f[LED_OFF_STEP].n))
    ensures 0 < f[LED_COUNT].n <= 1000 && f[LIGHT_NIGHT].n <= f[LIGHT_DAY].n
    ensures forall on: bool, k: Sweeps.Kind ::
              Sweeps.Head(k, Sweeps.Config(f[LED_COUNT].n, on, f[EMERGENCY_UP].n, f[EMERGENCY_DOWN].n)) < f[LED_COUNT].n
    ensures f[EMERGENCY_UP].n <= f[LED_COUNT].n && f[EMERGENCY_DOWN].n <= f[LED_COUNT].n
    ensures 1 <= |f[SSID].s| <= 32 && 8 <= |f[PASS].s| <= 63
  {
    var t := Table();
    assert HasType(f[LED_ON_VALUE], t[LED_ON_VALUE].ty) && HasType(f[LED_OFF_VALUE], t[LED_OFF_VALUE].ty);
    assert HasType(f[LED_ON_STEP], t[LED_ON_STEP].ty) && HasType(f[LED_OFF_STEP], t[LED_OFF_STEP].ty);
  }

  /** Nothing else is asked of settings than what makes them usable. */
  lemma UsableIsAccepted(f: seq<Value>)
    requires Typed(f, Table()) && Shaped(f)
    requires 1 <= f[LED_COUNT].n <= 1000 && f[EMERGENCY_UP].n <= f[LED_COUNT].n && f[EMERGENCY_DOWN].n <= f[LED_COUNT].n
    requires f[LED_ON_STEP].n > 0 && f[LED_OFF_STEP].n > 0 && f[LIGHT_NIGHT].n <= f[LIGHT_DAY].n
    requires 1 <= |f[SSID].s| <= 32 && 8 <= |f[PASS].s| <= 63
    ensures Acceptable(f)
  {
  }

  /** The numbers that the fields of one, two and four bytes can hold. */
  lemma FieldLimits(n: nat)
    ensures HasType(Num(n), U8) <==> n <= 255
    ensures HasType(Num(n), U16) <==> n <= 65535
    ensures HasType(Num(n), U32) <==> n <= 4294967295
  {
  }

  /** default_settings, in the order of the table. */
  const DEFAULTS: seq<Value> := [
    Flag(true), Num(1400), Num(1000), Num(1000), Num(1000), Flag(false), Num(800), Num(1000), Flag(true), Num(2000),
        Num(18), Num(400),
    Num(20000), Num(150), Num(0), Num(25), Num(25), Flag(true), Num(2), Num(2), Num(1000), Str("Stairway"),
        Str("12345678")]

  /** The defaults have the types of the table and pass the checks, so restoring them always ends in usable settings. */
  lemma DefaultsAcceptable()
    ensures Typed(DEFAULTS, Table()) && Acceptable(DEFAULTS)
  {
    DefaultsPass();
    DefaultsTyped();
  }

  lemma DefaultsPass()
    ensures Acceptable(DEFAULTS)
  {
  }

  lemma DefaultsTyped()
    ensures Typed(DEFAULTS, Table())
  {
    hide HasType, Type;
    var t := Table();
    forall i | 0 <= i < FIELDS ensures HasType(DEFAULTS[i], t[i].ty) {
      DefaultType(i);
    }
  }

  lemma DefaultType(i: nat)
    requires i < FIELDS
    ensures HasType(DEFAULTS[i], Type(i))
  {
    if i == SSID {
      assert NoZero("Stairway");
    } else if i == PASS {
      assert NoZero("12345678");
    }
  }

  /** settings_validate, in the order of its checks. */
  method Validate(f: seq<Value>) returns (ok: bool)
    requires Shaped(f)
    ensures ok <==> Acceptable(f)
  {
    if f[LED_COUNT].n == 0 || f[LED_COUNT].n > LED_COUNT_MAX {
      return false;
    }
    if f[EMERGENCY_UP].n > f[LED_COUNT].n {
      return false;
    }
    if f[EMERGENCY_DOWN].n > f[LED_COUNT].n {
      return false;
    }
    if f[LED_ON_STEP].n == 0 || f[LED_OFF_STEP].n == 0 {
      return false;
    }
    if f[LIGHT_DAY].n < f[LIGHT_NIGHT].n {
      return false;
    }
    var ssidLen, passLen := |f[SSID].s|, |f[PASS].s|;
    if ssidLen == 0 || ssidLen >= SSID_MAX_LEN {
      return false;
    }
    if passLen < PASS_MIN_LEN || passLen >= PASS_MAX_LEN {
      return false;
    }
    return true;
  }
}
