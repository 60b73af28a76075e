/**
 The settings page in flash: a record sealed with a magic number, a version, its size and a
 CRC-32, rewritten by an erase and a program step between which the power may fail.
 */
module SettingsStore {
  import opened CrcTheory
  import opened SettingsRecord
  import Crc16
  import Crc32

  type Byte = bv8

  const MAGIC: nat := 0xDEADBEED
  const VERSION: nat := 2

  /** The stored record: its header, the bytes of its fields, and the check value as 32 bits. */
  datatype Image = Image(magic: nat, version: nat, size: nat, body: seq<Byte>, crc: Bits)

  /**
   What the compiler fixes: how the bytes spell the settings, the bytes of the defaults, the
   assignment of the access point's state, and the record's size.
   */
  datatype Env = Env(layout: seq<Byte> -> Settings, defaults: seq<Byte>, assign: (seq<Byte>, bool) -> seq<Byte>,
      size: nat)

  predicate AcceptableBody(env: Env, body: seq<Byte>) {
    Acceptable(env.layout(body).fields)
  }

  ghost predicate DefaultsSpelled(env: Env) {
    env.layout(env.defaults) == Settings(DEFAULTS, true)
  }

  ghost predicate AssignsState(env: Env) {
    forall b, on :: env.layout(env.assign(b, on)) == env.layout(b).(apState := on)
  }

  /**
   The fields have their types, the defaults are spelled, and an assignment changes the access
   point's state alone.
   */
  ghost predicate GoodEnv(env: Env) {
    (forall b :: Shaped(env.layout(b).fields)) && DefaultsSpelled(env) && AssignsState(env)
  }

  lemma DefaultsFit(env: Env)
    requires GoodEnv(env)
    ensures AcceptableBody(env, env.defaults)
  {
    DefaultsAcceptable();
  }

  /** The access point's state is no part of what makes settings acceptable. */
  lemma AssignmentFits(env: Env, body: seq<Byte>, on: bool)
    requires GoodEnv(env) && AcceptableBody(env, body)
    ensures AcceptableBody(env, env.assign(body, on))
  {
  }

  /** A layout of two bytes, the access point's state and the number of LEDs. */
  function SmallLayout(body: seq<Byte>): Settings {
    Settings(if |body| >= 2 then DEFAULTS[LED_COUNT := Num(body[1] as nat)] else DEFAULTS, |body| >= 1 && body[0] != 0)
  }

  function SmallAssign(body: seq<Byte>, on: bool): seq<Byte> {
    var state: Byte := if on then 1 else 0;
    if body == [] then [state] else body[0 := state]
  }

  lemma SmallShaped(body: seq<Byte>)
    ensures Shaped(SmallLayout(body).fields)
  {
    DefaultsAcceptable();
  }

  lemma SmallAssigns(body: seq<Byte>, on: bool)
    ensures SmallLayout(SmallAssign(body, on)) == SmallLayout(body).(apState := on)
  {
  }

  lemma SmallDefaults()
    ensures SmallLayout([1, 18]) == Settings(DEFAULTS, true)
  {
    assert DEFAULTS[LED_COUNT := Num(18)] == DEFAULTS;
  }

  lemma SmallCount(n: Byte)
    ensures Acceptable(SmallLayout([0, n]).fields) <==> 2 <= n
    ensures SmallLayout([1, n]).fields == SmallLayout([0, n]).fields
            && SmallLayout([0, n]).fields[LED_COUNT] == Num(n as nat)
    ensures SmallLayout([1, n]).apState && !SmallLayout([0, n]).apState
  {
    DefaultsAcceptable();
  }

  const SMALL_ENV: Env := Env(b => SmallLayout(b), [1, 18], (b, on) => SmallAssign(b, on), 2)

  lemma SmallTyped()
    ensures forall b :: Shaped(SMALL_ENV.layout(b).fields)
  {
    hide SmallLayout, Shaped;
    forall b ensures Shaped(SMALL_ENV.layout(b).fields) {
      SmallShaped(b);
    }
  }

  lemma SmallAssignsState()
    ensures AssignsState(SMALL_ENV)
  {
    hide SmallLayout, SmallAssign;
    forall b, on ensures SMALL_ENV.layout(SMALL_ENV.assign(b, on)) == SMALL_ENV.layout(b).(apState := on) {
      SmallAssigns(b, on);
    }
  }

  lemma SmallSpelled()
    ensures DefaultsSpelled(SMALL_ENV)
  {
    hide SmallLayout;
    SmallDefaults();
  }

  lemma SmallIsGood()
    ensures GoodEnv(SMALL_ENV)
  {
    hide SmallLayout, SmallAssign, Shaped, AssignsState, DefaultsSpelled;
    SmallTyped();
    SmallAssignsState();
    SmallSpelled();
  }

  /** Such a layout can exist, with acceptable and unacceptable bodies and either state. */
  lemma GoodEnvExists() returns (env: Env)
    ensures GoodEnv(env)
    ensures AcceptableBody(env, [0, 20]) && AcceptableBody(env, [1, 20]) && !AcceptableBody(env, [1, 0])
    ensures env.layout([0, 20]) != env.layout([1, 20]) && env.layout([1, 20]) != env.layout([1, 21])
  {
    hide SmallLayout, SmallAssign, Acceptable, GoodEnv;
    env := SMALL_ENV;
    SmallIsGood();
    SmallCount(0);
    SmallCount(20);
    SmallCount(21);
  }

  function ByteOf(n: nat): Byte {
    (n % 256) as Byte
  }

  /** The bytes under the check value, header first and little-endian. */
  function Protected(i: Image): seq<Byte> {
    [ByteOf(i.magic), ByteOf(i.magic / 0x100), ByteOf(i.magic / 0x1_0000), ByteOf(i.magic / 0x100_0000),
     ByteOf(i.version), ByteOf(i.version / 0x100), ByteOf(i.size), ByteOf(i.size / 0x100)] + i.body
  }

  ghost predicate HeaderOk(env: Env, i: Image) {
    i.magic == MAGIC && i.version == VERSION && i.size == env.size && i.crc == Crc32.Check(Protected(i))
  }

  /** The record that a write leaves in flash. */
  ghost function Seal(env: Env, body: seq<Byte>): Image {
    var i := Image(MAGIC, VERSION, env.size, body, []);
    i.(crc := Crc32.Check(Protected(i)))
  }

  lemma SealIsOk(env: Env, body: seq<Byte>)
    ensures HeaderOk(env, Seal(env, body)) && Seal(env, body).body == body
  {
    var i := Image(MAGIC, VERSION, env.size, body, []);
    assert Protected(Seal(env, body)) == Protected(i);
  }

  /** An erased page reads as ones. */
  function Erased(): Image {
    Image(0xFFFF_FFFF, 0xFFFF, 0xFFFF, [], Zeros(0))
  }

  ghost predicate Loadable(env: Env, i: Image) {
    HeaderOk(env, i) && AcceptableBody(env, i.body)
  }

  // ----- the store as steps between power cuts -----

  datatype State = State(global: Image, flash: Image, powered: bool)

  /** A write of which the power lets `cut` flash steps complete, two being all. */
  ghost function Written(env: Env, body: seq<Byte>, flash: Image, cut: nat): State {
    var g := Seal(env, body);
    if flash == g || cut >= 2 then State(g, g, true)
    else State(g, if cut == 0 then flash else Erased(), false)
  }

  /** `SetAp` is the command line's assignment of the access point's state, and `Flip` the button's. */
  datatype Op = Boot | Apply(body: seq<Byte>) | Default | Flip | SetAp(on: bool)

  function Flipped(env: Env, body: seq<Byte>): seq<Byte> {
    env.assign(body, !env.layout(body).apState)
  }

  ghost function Step(env: Env, s: State, op: Op, cut: nat): State {
    match op
    case Boot =>
      if Loadable(env, s.flash) then State(s.flash, s.flash, true) else Written(env, env.defaults, s.flash, cut)
    case Apply(body) => if s.powered && AcceptableBody(env, body) then Written(env, body, s.flash, cut) else s
    case Default => if s.powered then Written(env, env.defaults, s.flash, cut) else s
    case Flip => if s.powered then Written(env, Flipped(env, s.global.body), s.flash, cut) else s
    case SetAp(on) => if s.powered then Written(env, env.assign(s.global.body, on), s.flash, cut) else s
  }

  ghost function Run(env: Env, s: State, ops: seq<(Op, nat)>): State {
    if ops == [] then s
    else Step(env, Run(env, s, ops[..|ops| - 1]), ops[|ops| - 1].0, ops[|ops| - 1].1)
  }

  ghost predicate RunsWhatItStored(env: Env, s: State) {
    s.powered ==> Loadable(env, s.global) && s.flash == s.global
  }

  lemma WriteIsSafe(env: Env, body: seq<Byte>, flash: Image, cut: nat)
    requires AcceptableBody(env, body)
    ensures RunsWhatItStored(env, Written(env, body, flash, cut))
  {
    SealIsOk(env, body);
  }

  lemma StepIsSafe(env: Env, s: State, op: Op, cut: nat)
    requires GoodEnv(env) && RunsWhatItStored(env, s)
    ensures RunsWhatItStored(env, Step(env, s, op, cut))
  {
    hide DefaultsSpelled, AssignsState, AcceptableBody, Written;
    DefaultsFit(env);
    match op
    case Boot => WriteIsSafe(env, env.defaults, s.flash, cut);
    case Default => WriteIsSafe(env, env.defaults, s.flash, cut);
    case Apply(body) =>
      if AcceptableBody(env, body) {
        WriteIsSafe(env, body, s.flash, cut);
      }
    case Flip =>
      if s.powered {
        AssignmentFits(env, s.global.body, !env.layout(s.global.body).apState);
        WriteIsSafe(env, Flipped(env, s.global.body), s.flash, cut);
      }
    case SetAp(on) =>
      if s.powered {
        AssignmentFits(env, s.global.body, on);
        WriteIsSafe(env, env.assign(s.global.body, on), s.flash, cut);
      }
  }

  /**
   Always valid: whatever the flash held at first, after any sequence of boots and changes cut
   off anywhere, a powered device runs acceptable settings, and they are what its flash holds.
   */
  lemma {:induction false} AlwaysValid(env: Env, s: State, ops: seq<(Op, nat)>)
    requires GoodEnv(env) && !s.powered
    ensures var r := Run(env, s, ops); r.powered ==> Loadable(env, r.global) && r.flash == r.global
  {
    if ops != [] {
      var n := |ops| - 1;
      AlwaysValid(env, s, ops[..n]);
      StepIsSafe(env, Run(env, s, ops[..n]), ops[n].0, ops[n].1);
    }
  }

  /** The settings an operation is about to store. */
  ghost function Target(env: Env, s: State, op: Op): seq<Byte> {
    match op
    case Boot => s.global.body
    case Apply(body) => body
    case Default => env.defaults
    case Flip => Flipped(env, s.global.body)
    case SetAp(on) => env.assign(s.global.body, on)
  }

  ghost predicate Boots(ops: seq<(Op, nat)>) {
    forall i :: 0 <= i < |ops| ==> ops[i].0.Boot?
  }

  lemma ErasedIsNotLoadable(env: Env)
    ensures !Loadable(env, Erased())
  {
  }

  /** A powered device runs one of some records, and the flash holds one of them or is erased. */
  ghost predicate Among(s: State, images: set<Image>) {
    (s.powered ==> s.global in images) && s.flash in images + {Erased()}
  }

  lemma WriteLeaves(env: Env, body: seq<Byte>, flash: Image, cut: nat, images: set<Image>)
    requires Seal(env, body) in images && flash in images + {Erased()}
    ensures Among(Written(env, body, flash, cut), images)
  {
    hide Seal;
  }

  lemma BootLeaves(env: Env, s: State, cut: nat, images: set<Image>)
    requires Among(s, images) && Seal(env, env.defaults) in images
    ensures Among(Step(env, s, Boot, cut), images)
  {
    hide Seal, Written;
    ErasedIsNotLoadable(env);
    WriteLeaves(env, env.defaults, s.flash, cut, images);
  }

  lemma ChangeLeaves(env: Env, s: State, op: Op, cut: nat, images: set<Image>)
    requires Among(s, images) && Seal(env, env.defaults) in images && Seal(env, Target(env, s, op)) in images
    ensures Among(Step(env, s, op, cut), images)
  {
    hide Seal, Written;
    BootLeaves(env, s, cut, images);
    WriteLeaves(env, env.defaults, s.flash, cut, images);
    WriteLeaves(env, Target(env, s, op), s.flash, cut, images);
  }

  /**
   Crash safety: after a change cut off anywhere, and any number of boots themselves cut off
   anywhere, the device that comes up runs the old settings, the new ones or the defaults.
   */
  lemma {:induction false} CrashSafe(env: Env, s: State, op: Op, cut: nat, boots: seq<(Op, nat)>)
    requires GoodEnv(env) && s.powered && s.flash == s.global && Loadable(env, s.global)
    requires Boots(boots)
    ensures Among(Run(env, Step(env, s, op, cut), boots),
            {s.global, Seal(env, Target(env, s, op)), Seal(env, env.defaults)})
  {
    hide Seal, Step, Target;
    var images := {s.global, Seal(env, Target(env, s, op)), Seal(env, env.defaults)};
    if boots == [] {
      ChangeLeaves(env, s, op, cut, images);
    } else {
      var n := |boots| - 1;
      CrashSafe(env, s, op, cut, boots[..n]);
      assert boots[n].0.Boot?;
      BootLeaves(env, Run(env, Step(env, s, op, cut), boots[..n]), boots[n].1, images);
    }
  }

  /** A change whose write completes survives every later boot. */
  lemma CompletedChangeSurvives(env: Env, s: State, body: seq<Byte>, cut: nat, boots: seq<(Op, nat)>)
    requires GoodEnv(env) && s.powered && AcceptableBody(env, body) && Boots(boots)
    requires Step(env, s, Apply(body), cut).powered
    ensures Run(env, Step(env, s, Apply(body), cut), boots).global == Seal(env, body)
    ensures Run(env, Step(env, s, Apply(body), cut), boots).flash == Seal(env, body)
    decreases |boots|
  {
    SealIsOk(env, body);
    if boots != [] {
      CompletedChangeSurvives(env, s, body, cut, boots[..|boots| - 1]);
      assert boots[|boots| - 1].0.Boot?;
    }
  }

  /** A page with another magic number, version or size is not loaded, whatever its check value. */
  lemma OtherHeaderRestores(env: Env, s: State)
    requires s.flash.magic != 0xDEADBEED || s.flash.version != 2 || s.flash.size != env.size
    ensures Step(env, s, Boot, 2) == State(Seal(env, env.defaults), Seal(env, env.defaults), true)
  {
    hide Seal;
  }

  /** Settings that flash already holds are not written again, so no power cut can harm them. */
  lemma SameNeedsNoWrite(env: Env, s: State, body: seq<Byte>, cut: nat)
    requires s.powered && AcceptableBody(env, body) && s.flash == Seal(env, body)
    ensures Step(env, s, Apply(body), cut) == State(s.flash, s.flash, true)
  {
    hide Seal, AcceptableBody;
  }

  /** A completed reset puts the defaults in force, and every later boot loads them. */
  lemma {:induction false} ResetSurvives(env: Env, s: State, boots: seq<(Op, nat)>)
    requires GoodEnv(env) && s.powered && Boots(boots)
    ensures env.layout(Run(env, Step(env, s, Default, 2), boots).global.body) == Settings(DEFAULTS, true)
    ensures Run(env, Step(env, s, Default, 2), boots).flash == Seal(env, env.defaults)
  {
    hide GoodEnv, Seal;
    DefaultsFit(env);
    SealIsOk(env, env.defaults);
    DefaultIsApply(env, s);
    CompletedChangeSurvives(env, s, env.defaults, 2, boots);
    DefaultsAreSpelled(env);
  }

  lemma DefaultsAreSpelled(env: Env)
    requires GoodEnv(env)
    ensures DefaultsSpelled(env)
  {
  }

  lemma DefaultIsApply(env: Env, s: State)
    requires s.powered && AcceptableBody(env, env.defaults)
    ensures Step(env, s, Default, 2) == Step(env, s, Apply(env.defaults), 2) && Step(env, s, Default, 2).powered
  {
    hide Seal;
  }

  lemma ApWrites(env: Env, s: State, on: bool)
    requires s.powered
    ensures Step(env, s, Flip, 2) == Written(env, Flipped(env, s.global.body), s.flash, 2)
    ensures Step(env, s, SetAp(on), 2) == Written(env, env.assign(s.global.body, on), s.flash, 2)
  {
    hide Written, Flipped;
  }

  lemma Assigned(env: Env, body: seq<Byte>, on: bool)
    requires GoodEnv(env)
    ensures env.layout(env.assign(body, on)) == env.layout(body).(apState := on)
  {
    hide DefaultsSpelled, Shaped;
  }

  /** The button toggles the access point's state and the command sets it; no other setting changes. */
  lemma ApStateChanges(env: Env, s: State, on: bool)
    requires GoodEnv(env) && s.powered
    ensures var before := env.layout(s.global.body);
            && env.layout(Step(env, s, Flip, 2).global.body) == before.(apState := !before.apState)
            && env.layout(Step(env, s, SetAp(on), 2).global.body) == before.(apState := on)
  {
    hide Step, Written, GoodEnv;
    ApWrites(env, s, on);
    WrittenBody(env, Flipped(env, s.global.body), s.flash);
    WrittenBody(env, env.assign(s.global.body, on), s.flash);
    Assigned(env, s.global.body, on);
    Assigned(env, s.global.body, !env.layout(s.global.body).apState);
  }

  lemma WrittenBody(env: Env, body: seq<Byte>, flash: Image)
    ensures Written(env, body, flash, 2).global.body == body
  {
    hide HeaderOk;
    SealIsOk(env, body);
  }

  /** All bits of a record in the order of the flash page, the check value last. */
  function RecordBits(i: Image): Bits {
    Crc16.FrameBits(Protected(i)) + i.crc
  }

  /**
   A record damaged within 32 consecutive bits, wherever they lie in the page, is not loaded: the
   device boots with its defaults.
   */
  lemma DamageRestoresDefaults(env: Env, good: Image, bad: Image, s: State)
    requires GoodEnv(env) && HeaderOk(env, good) && s.flash == bad
    requires |Protected(good)| == |Protected(bad)| && |bad.crc| == 32
    requires IsBurst(Xor(RecordBits(good), RecordBits(bad)), 32)
    ensures Step(env, s, Boot, 2).global == Seal(env, env.defaults)
  {
    Crc32.BurstDetected(Protected(good), good.crc, Protected(bad), bad.crc);
  }

  // ----- the code -----

  class Store {
    const env: Env
    var global: Image
    var flash: Image
    var powered: bool

    ghost function View(): State
      reads this
    {
      State(global, flash, powered)
    }

    constructor (env: Env, flash: Image)
      ensures this.env == env && this.flash == flash && !powered
    {
      this.env, this.flash, powered := env, flash, false;
      global := Erased();
    }

    method CrcOf(i: Image) returns (crc: Bits)
      ensures crc == Crc32.Check(Protected(i))
    {
      var c := Crc32.SettingsCrc(Protected(i));
      crc := Crc32.WordBits(c);
    }

    /** settings_is_valid_header. */
    method IsValidHeader(i: Image) returns (ok: bool)
      ensures ok <==> HeaderOk(env, i)
    {
      var crc := CrcOf(i);
      ok := i.magic == MAGIC && i.version == VERSION && i.size == env.size && i.crc == crc;
    }

    /** settings_write. */
    method Write(cut: nat)
      requires powered
      modifies this
      ensures View() == Written(env, old(global.body), old(flash), cut)
    {
      global := Image(MAGIC, VERSION, env.size, global.body, []);
      var crc := CrcOf(global);
      global := global.(crc := crc);
      if flash != global {
        if cut == 0 {
          powered := false;
          return;
        }
        flash := Erased();
        if cut == 1 {
          powered := false;
          return;
        }
        flash := global;
      }
    }

    /** settings_init, at power-up. */
    method Init(cut: nat)
      requires GoodEnv(env)
      modifies this
      ensures View() == Step(env, old(View()), Boot, cut)
    {
      powered := true;
      global := flash;
      var ok := IsValidHeader(global);
      if ok {
        ok := Validate(env.layout(global.body).fields);
      }
      if !ok {
        global := global.(body := env.defaults);
        Write(cut);
      }
    }

    /** settings_apply: refused settings change nothing. */
    method ApplySettings(body: seq<Byte>, cut: nat) returns (ok: bool)
      requires GoodEnv(env) && powered
      modifies this
      ensures View() == Step(env, old(View()), Apply(body), cut)
      ensures ok ==> AcceptableBody(env, body) && powered
      ensures !AcceptableBody(env, body) ==> View() == old(View())
    {
      ok := Validate(env.layout(body).fields);
      if !ok {
        return;
      }
      global := global.(body := body);
      Write(cut);
      ok := powered;
    }

    /** settings_default. */
    method SetDefault(cut: nat)
      requires powered
      modifies this
      ensures View() == Step(env, old(View()), Default, cut)
    {
      global := global.(body := env.defaults);
      Write(cut);
    }

    /** The button's edit of the active settings, written without a check. */
    method FlipAccessPoint(cut: nat)
      requires powered
      modifies this
      ensures View() == Step(env, old(View()), Flip, cut)
    {
      global := global.(body := env.assign(global.body, !env.layout(global.body).apState));
      Write(cut);
    }

    /** The command that switches the access point on or off, written without a check. */
    method SetAccessPoint(on: bool, cut: nat)
      requires powered
      modifies this
      ensures View() == Step(env, old(View()), SetAp(on), cut)
    {
      global := global.(body := env.assign(global.body, on));
      Write(cut);
    }
  }
}
