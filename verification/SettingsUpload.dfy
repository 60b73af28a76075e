/**
 The settings' way from the web page into flash: the text that is uploaded is read, checked,
 put in force and written, and what one device printed is what the other one boots with.
 */
module SettingsUpload {
  import opened Common
  import opened SettingsRecord
  import opened JsonText
  import opened SettingsJson
  import opened SettingsStore

  /** How fields are stored over a record's bytes. */
  type Spell = (seq<SettingsStore.Byte>, Fields) -> seq<SettingsStore.Byte>

  /** Stored fields read back, and the access point's state stays. */
  ghost predicate Spells(env: Env, spell: Spell) {
    forall b, f :: Typed(f, SettingsRecord.Table()) ==>
                     env.layout(spell(b, f)) == Settings(f, env.layout(b).apState)
  }

  class SettingsPage {
    const web: WebSettings
    const store: Store
    const spell: Spell

    /** The page shows the settings in force. */
    ghost predicate Valid()
      reads this, web, store
    {
      && web.Valid() && web.table == SettingsRecord.Table()
      && GoodEnv(store.env) && Spells(store.env, spell)
      && web.active == store.env.layout(store.global.body).fields
    }

    constructor (web: WebSettings, store: Store, spell: Spell)
      requires web.Valid() && web.table == SettingsRecord.Table()
      requires GoodEnv(store.env) && Spells(store.env, spell)
      requires web.active == store.env.layout(store.global.body).fields
      ensures Valid() && this.web == web && this.store == store && this.spell == spell
    {
      this.web, this.store, this.spell := web, store, spell;
    }

    /** set_settings_json to its end: accepted settings are in force and written, and refused ones change nothing. */
    method Upload(json: string, cut: nat) returns (r: Result<Fields>)
      requires Valid() && NoZero(json) && store.powered
      modifies web, store
      ensures Valid() && r == Applied(web.table, old(web.active), json)
      ensures r.Ok? ==> web.active == r.value
      ensures r.Ok? ==>
                store.View() == Step(store.env, old(store.View()), Apply(spell(old(store.global.body), r.value)), cut)
      ensures r.Err? ==> store.View() == old(store.View())
      ensures store.env.layout(store.global.body).apState == store.env.layout(old(store.global.body)).apState
    {
      hide Applied, GoodEnv, Acceptable, Seal;
      r := web.Set(json);
      if r.Ok? {
        var body := spell(store.global.body, r.value);
        Spelled(store.env, spell, store.global.body, r.value);
        AppliedBody(store.env, store.View(), body, cut);
        var applied := store.ApplySettings(body, cut);
      }
    }
  }

  lemma Spelled(env: Env, spell: Spell, body: seq<SettingsStore.Byte>, f: Fields)
    requires Spells(env, spell) && Typed(f, SettingsRecord.Table()) && Acceptable(f)
    ensures env.layout(spell(body, f)) == Settings(f, env.layout(body).apState)
    ensures AcceptableBody(env, spell(body, f))
  {
    hide Acceptable;
  }

  /** Accepted settings are in force even if the power fails while they are written. */
  lemma AppliedBody(env: Env, s: State, body: seq<SettingsStore.Byte>, cut: nat)
    requires s.powered && AcceptableBody(env, body)
    ensures Step(env, s, Apply(body), cut).global.body == body
  {
    hide AcceptableBody;
    SealIsOk(env, body);
  }

  /**
   What one device printed, uploaded to another one and completely written, is what that device
   runs after any number of boots: all public fields of the first, with its own password and its
   own access point's state.
   */
  lemma UploadSurvivesBoots(env: Env, spell: Spell, a: Fields, s: State, cut: nat, boots: seq<(Op, nat)>)
    requires GoodEnv(env) && Spells(env, spell) && s.powered && RunsWhatItStored(env, s) && Boots(boots)
    requires Typed(a, SettingsRecord.Table()) && Acceptable(a)
    requires Typed(env.layout(s.global.body).fields, SettingsRecord.Table())
    ensures var b := env.layout(s.global.body);
            var r := Applied(SettingsRecord.Table(), b.fields, Json(SettingsRecord.Table(), a));
            && r == Ok(a[PASS := b.fields[PASS]])
            && var t := Step(env, s, Apply(spell(s.global.body, r.value)), cut);
               t.powered ==> env.layout(Run(env, t, boots).global.body) == Settings(r.value, b.apState)
  {
    hide GoodEnv, Acceptable, Applied, Json, HeaderOk, Written, Seal;
    var b := env.layout(s.global.body);
    var f := a[PASS := b.fields[PASS]];
    JsonRestores(a, b.fields);
    SamePublicAcceptable(a, b.fields);
    var body := spell(s.global.body, f);
    Spelled(env, spell, s.global.body, f);
    SealIsOk(env, body);
    if Step(env, s, Apply(body), cut).powered {
      CompletedChangeSurvives(env, s, body, cut, boots);
    }
  }

  /** The passwords of two acceptable records may be exchanged. */
  lemma SamePublicAcceptable(a: Fields, b: Fields)
    requires Typed(a, SettingsRecord.Table()) && Typed(b, SettingsRecord.Table()) && Acceptable(a) && Acceptable(b)
    ensures Typed(a[PASS := b[PASS]], SettingsRecord.Table()) && Acceptable(a[PASS := b[PASS]])
  {
    hide Json;
    JsonRestores(a, b);
  }

  // ----- such a layout exists -----

  function Code(n: nat): seq<SettingsStore.Byte> {
    if n == 0 then [1] else [0] + Code(n - 1)
  }

  function CodeText(s: string): seq<SettingsStore.Byte> {
    if s == [] then [] else Code(s[0] as nat) + CodeText(s[1..])
  }

  function CodeValue(v: Value): seq<SettingsStore.Byte> {
    match v
    case Flag(b) => Code(if b then 1 else 0)
    case Num(n) => Code(n)
    case Str(s) => Code(|s|) + CodeText(s)
  }

  function CodeFields(f: Fields, i: nat): seq<SettingsStore.Byte>
    decreases |f| - i
  {
    if i >= |f| then [] else CodeValue(f[i]) + CodeFields(f, i + 1)
  }

  function CodeSettings(s: Settings): seq<SettingsStore.Byte> {
    Code(if s.apState then 1 else 0) + CodeFields(s.fields, 0)
  }

  lemma {:induction false} CodeApart(m: nat, n: nat, x: seq<SettingsStore.Byte>, y: seq<SettingsStore.Byte>)
    requires Code(m) + x == Code(n) + y
    ensures m == n && x == y
  {
    assert (Code(m) + x)[0] == Code(m)[0] && (Code(n) + y)[0] == Code(n)[0];
    if m == 0 || n == 0 {
      assert (Code(m) + x)[1..] == x && (Code(n) + y)[1..] == y;
    } else {
      assert (Code(m) + x)[1..] == Code(m - 1) + x && (Code(n) + y)[1..] == Code(n - 1) + y;
      CodeApart(m - 1, n - 1, x, y);
    }
  }

  lemma {:induction false} CodeTextApart(s: string, t: string, x: seq<SettingsStore.Byte>, y: seq<SettingsStore.Byte>)
    requires |s| == |t| && CodeText(s) + x == CodeText(t) + y
    ensures s == t && x == y
  {
    if s == [] {
      assert [] + x == x && [] + y == y;
    } else {
      var a, b := CodeText(s[1..]) + x, CodeText(t[1..]) + y;
      assert CodeText(s) + x == Code(s[0] as nat) + a && CodeText(t) + y == Code(t[0] as nat) + b;
      CodeApart(s[0] as nat, t[0] as nat, a, b);
      CodeTextApart(s[1..], t[1..], x, y);
      assert s == [s[0]] + s[1..] && t == [t[0]] + t[1..];
    }
  }

  lemma CodeStringApart(s: string, t: string, x: seq<SettingsStore.Byte>, y: seq<SettingsStore.Byte>)
    requires Code(|s|) + CodeText(s) + x == Code(|t|) + CodeText(t) + y
    ensures s == t && x == y
  {
    hide Code, CodeText;
    assert Code(|s|) + CodeText(s) + x == Code(|s|) + (CodeText(s) + x);
    assert Code(|t|) + CodeText(t) + y == Code(|t|) + (CodeText(t) + y);
    CodeApart(|s|, |t|, CodeText(s) + x, CodeText(t) + y);
    CodeTextApart(s, t, x, y);
  }

  lemma CodeValueApart(v: Value, w: Value, ty: FieldType, x: seq<SettingsStore.Byte>, y: seq<SettingsStore.Byte>)
    requires HasType(v, ty) && HasType(w, ty) && CodeValue(v) + x == CodeValue(w) + y
    ensures v == w && x == y
  {
    hide Code, NoZero, Max;
    if v.Str? {
      CodeStringApart(v.s, w.s, x, y);
    } else if v.Num? {
      CodeApart(v.n, w.n, x, y);
    } else {
      CodeApart(if v.b then 1 else 0, if w.b then 1 else 0, x, y);
    }
  }

  lemma {:induction false} CodeFieldsApart(t: Table, f: Fields, g: Fields, i: nat)
    requires Typed(f, t) && Typed(g, t) && i <= |t| && CodeFields(f, i) == CodeFields(g, i)
    ensures f[i..] == g[i..]
    decreases |t| - i
  {
    hide CodeValue, HasType;
    if i < |t| {
      CodeValueApart(f[i], g[i], t[i].ty, CodeFields(f, i + 1), CodeFields(g, i + 1));
      CodeFieldsApart(t, f, g, i + 1);
      assert f[i..] == [f[i]] + f[i + 1..] && g[i..] == [g[i]] + g[i + 1..];
    }
  }

  lemma CodeSettingsApart(r: Settings, s: Settings)
    requires Typed(r.fields, SettingsRecord.Table()) && Typed(s.fields, SettingsRecord.Table())
    requires CodeSettings(r) == CodeSettings(s)
    ensures r == s
  {
    CodeApart(if r.apState then 1 else 0, if s.apState then 1 else 0, CodeFields(r.fields, 0), CodeFields(s.fields, 0));
    CodeFieldsApart(SettingsRecord.Table(), r.fields, s.fields, 0);
    assert r.fields[0..] == r.fields && s.fields[0..] == s.fields;
  }

  ghost predicate Codes(body: seq<SettingsStore.Byte>, s: Settings) {
    Typed(s.fields, SettingsRecord.Table()) && CodeSettings(s) == body
  }

  /** The settings whose code the bytes are, or else the defaults. */
  ghost function Decoded(body: seq<SettingsStore.Byte>): Settings {
    if exists s :: Codes(body, s) then var s :| Codes(body, s); s else Settings(DEFAULTS, true)
  }

  lemma DecodedCode(s: Settings)
    requires Typed(s.fields, SettingsRecord.Table())
    ensures Decoded(CodeSettings(s)) == s
  {
    hide CodeSettings, Typed;
    assert Codes(CodeSettings(s), s);
    CodeSettingsApart(Decoded(CodeSettings(s)), s);
  }

  lemma DecodedTyped(body: seq<SettingsStore.Byte>)
    ensures Typed(Decoded(body).fields, SettingsRecord.Table()) && Shaped(Decoded(body).fields)
  {
    hide CodeSettings, Acceptable;
    DefaultsAcceptable();
    TypedIsShaped(Decoded(body).fields);
  }

  /** The assumptions about the layout can all be met together. */
  lemma SpellingExists() returns (env: Env, spell: Spell)
    ensures GoodEnv(env) && Spells(env, spell)
  {
    hide CodeSettings, Decoded, Acceptable, Typed, Shaped;
    env := Env(b => Decoded(b), CodeSettings(Settings(DEFAULTS, true)),
               (b, on) => CodeSettings(Decoded(b).(apState := on)), 2);
    spell := (b, f) => CodeSettings(Settings(f, Decoded(b).apState));
    DefaultsAcceptable();
    DecodedCode(Settings(DEFAULTS, true));
    forall b
      ensures Shaped(env.layout(b).fields)
    {
      DecodedTyped(b);
    }
    forall b, on
      ensures env.layout(env.assign(b, on)) == env.layout(b).(apState := on)
    {
      DecodedTyped(b);
      DecodedCode(Decoded(b).(apState := on));
    }
    forall b, f | Typed(f, SettingsRecord.Table())
      ensures env.layout(spell(b, f)) == Settings(f, env.layout(b).apState)
    {
      DecodedCode(Settings(f, Decoded(b).apState));
    }
  }
}
