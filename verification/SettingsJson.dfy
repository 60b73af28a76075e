/**
 The settings as JSON: printed field by field for the web page, and read back by searching
 the text for each field's quoted name. The secret string is never printed, and an empty one
 read back means "keep". Everything is stated for any table of the firmware's shape.
 */
module SettingsJson {
  import opened Common
  import opened SettingsRecord
  import opened SettingsNames
  import opened DecimalText
  import opened JsonText

  type Table = seq<Field>
  type Fields = seq<Value>

  const JSON_BUF_SIZE_MAX: nat := 1024

  // ----- printing -----

  function ValueText(ty: FieldType, v: Value): string
    requires HasType(v, ty)
  {
    match ty
    case Bool => if v.b then "true" else "false"
    case Text(_, secret) => ['"'] + (if secret then [] else Escape(v.s)) + ['"']
    case _ => Decimal(v.n)
  }

  function Separator(t: Table, i: nat): string {
    if i + 1 < |t| then [','] else []
  }

  function Entry(t: Table, f: Fields, i: nat): string
    requires Typed(f, t) && i < |t|
  {
    Quoted(t[i].name) + [':'] + ValueText(t[i].ty, f[i]) + Separator(t, i)
  }

  function Entries(t: Table, f: Fields, i: nat): string
    requires Typed(f, t) && i <= |t|
    decreases |t| - i
  {
    if i == |t| then [] else Entry(t, f, i) + Entries(t, f, i + 1)
  }

  function Json(t: Table, f: Fields): string
    requires Typed(f, t)
  {
    ['{'] + Entries(t, f, 0) + ['}']
  }

  // ----- reading -----

  /** The value a field takes from the text found for it, if any. */
  function ReadValue(ty: FieldType, val: string): Result<Option<Value>> {
    match ty
    case Bool =>
      (match BoolValue(val)
       case Ok(b) => Ok(Some(Flag(b)))
       case Err(e) => Err(e))
    case Text(capacity, secret) =>
      (match StringValue(val, capacity)
       case Ok(s) => Ok(if secret && s == [] then None else Some(Str(s)))
       case Err(e) => Err(e))
    case _ =>
      (match UintValue(val, Max(ty))
       case Ok(n) => Ok(Some(Num(n)))
       case Err(e) => Err(e))
  }

  /** The fields after reading field `i`: a field whose name is not found keeps its value. */
  function ReadField(t: Table, f: Fields, json: string, i: nat): (r: Result<Fields>)
    requires i < |t| == |f|
    ensures r.Ok? ==> |r.value| == |t|
  {
    match ValueOf(json, t[i].name)
    case None => Ok(f)
    case Some(val) =>
      match ReadValue(t[i].ty, val)
      case Err(e) => Err(e)
      case Ok(None) => Ok(f)
      case Ok(Some(v)) => Ok(f[i := v])
  }

  function ReadFields(t: Table, f: Fields, json: string, i: nat): (r: Result<Fields>)
    requires i <= |t| == |f|
    ensures r.Ok? ==> |r.value| == |t|
    decreases |t| - i
  {
    if i == |t| then Ok(f)
    else
      match ReadField(t, f, json, i)
      case Err(e) => Err(e)
      case Ok(g) => ReadFields(t, g, json, i + 1)
  }

  /** The fields that a text puts in force, or why it puts none. */
  function Applied(t: Table, f: Fields, json: string): Result<Fields>
    requires |t| == |f|
  {
    match ReadFields(t, f, json, 0)
    case Err(e) => Err(e)
    case Ok(g) => if Acceptable(g) then Ok(g) else Err(ParamInvalid)
  }

  /** Only accepted settings are put in force. */
  lemma AppliedIsAcceptable(t: Table, f: Fields, json: string)
    requires |t| == |f|
    ensures Applied(t, f, json).Ok? ==> Acceptable(Applied(t, f, json).value)
  {
    hide Acceptable;
  }

  /** A text that holds one of the keys only changes that field alone, and one that holds none changes nothing. */
  lemma {:induction false} OneFieldRead(t: Table, f: Fields, json: string, k: nat, i: nat)
    requires i <= |t| == |f| && k <= |t|
    requires forall j :: 0 <= j < |t| && j != k ==> ValueOf(json, t[j].name) == None
    ensures ReadFields(t, f, json, i) == if i <= k < |t| then ReadField(t, f, json, k) else Ok(f)
    decreases |t| - i
  {
    hide ValueOf, ReadValue;
    if i < |t| {
      if i == k {
        var r := ReadField(t, f, json, k);
        if r.Ok? {
          OneFieldRead(t, r.value, json, k, i + 1);
        }
      } else {
        OneFieldRead(t, f, json, k, i + 1);
      }
    }
  }

  /** What a field takes from a text: a readable value, its own if the key is absent or the secret is empty. */
  lemma FieldRead(t: Table, f: Fields, json: string, k: nat)
    requires k < |t| == |f|
    ensures ValueOf(json, t[k].name) == None ==> ReadField(t, f, json, k) == Ok(f)
    ensures ValueOf(json, t[k].name).Some? ==>
              match ReadValue(t[k].ty, ValueOf(json, t[k].name).value)
              case Err(e) => ReadField(t, f, json, k) == Err(e)
              case Ok(None) => ReadField(t, f, json, k) == Ok(f)
              case Ok(Some(v)) => ReadField(t, f, json, k) == Ok(f[k := v])
  {
  }

  // ----- finding what was printed -----

  lemma {:induction false} SkipPlain(a: string, b: string, pat: string)
    requires pat != [] && forall i :: 0 <= i < |a| ==> a[i] != pat[0]
    ensures After(a + b, pat) == After(b, pat)
  {
    if a == [] {
      assert a + b == b;
    } else {
      assert (a + b)[0] == a[0] && (a + b)[1..] == a[1..] + b;
      SkipPlain(a[1..], b, pat);
    }
  }

  /** A quoted name starts here only if it is this quoted name. */
  lemma SameName(m: string, n: string, rest: string)
    requires forall i :: 0 <= i < |m| ==> m[i] != '"'
    requires forall i :: 0 <= i < |n| ==> n[i] != '"'
    requires m + ['"'] <= n + ['"'] + rest
    ensures m == n
  {
    var a, b := m + ['"'], n + ['"'] + rest;
    assert forall i :: 0 <= i < |a| ==> a[i] == b[i];
    assert a[|m|] == '"' && b[|n|] == '"';
    assert |m| == |n|;
    assert forall i :: 0 <= i < |m| ==> m[i] == a[i] && b[i] == n[i];
  }

  /** Another name's opening quote is no match. */
  lemma OtherName(m: string, n: string, tail: string)
    requires IsName(m) && IsName(n) && m != n
    ensures !(Quoted(m) <= Quoted(n) + tail)
  {
    var pat, text := Quoted(m), Quoted(n) + tail;
    if pat <= text {
      assert pat[1..] == m + ['"'] && text[1..] == n + ['"'] + tail && pat[1..] <= text[1..];
      SameName(m, n, tail);
    }
  }

  /** A quote that nothing of a name follows is no match. */
  lemma SkipQuote(m: string, tail: string)
    requires IsName(m) && tail != [] && !Plain(tail[0])
    ensures After(['"'] + tail, Quoted(m)) == After(tail, Quoted(m))
  {
    var text := ['"'] + tail;
    assert text[1..] == tail && text[1] == tail[0] && Quoted(m)[1] == m[0];
  }

  /** The search for one name passes over an entry with another name whose value has no quotes. */
  lemma SkipEntry(m: string, n: string, value: string, rest: string)
    requires IsName(m) && IsName(n) && m != n
    requires forall i :: 0 <= i < |value| ==> value[i] != '"'
    ensures After(Quoted(n) + ([':'] + value + rest), Quoted(m)) == After(rest, Quoted(m))
  {
    var pat, tail := Quoted(m), [':'] + value + rest;
    var text := Quoted(n) + tail;
    OtherName(m, n, tail);
    assert text[1..] == n + (['"'] + tail);
    SkipPlain(n, ['"'] + tail, pat);
    SkipQuote(m, tail);
    SkipPlain([':'] + value, rest, pat);
  }

  lemma PlainValue(ty: FieldType, v: Value)
    requires !ty.Text? && HasType(v, ty)
    ensures forall j :: 0 <= j < |ValueText(ty, v)| ==> ValueText(ty, v)[j] != '"'
  {
  }

  lemma SkipOneEntry(t: Table, f: Fields, i: nat, k: nat, rest: string)
    requires GoodTable(t) && Typed(f, t) && i < k < |t| && i < |t| - 2
    ensures After(Entries(t, f, i) + rest, Quoted(t[k].name)) == After(Entries(t, f, i + 1) + rest, Quoted(t[k].name))
  {
    PlainValue(t[i].ty, f[i]);
    EntryText(t, f, i, rest);
    SkipEntry(t[k].name, t[i].name, ValueText(t[i].ty, f[i]) + Separator(t, i), Entries(t, f, i + 1) + rest);
  }

  /** The search for field `k` passes over the entries before it that are not strings. */
  lemma {:induction false} SkipEntries(t: Table, f: Fields, i: nat, upto: nat, k: nat, rest: string)
    requires GoodTable(t) && Typed(f, t) && i <= upto <= k < |t| && upto <= |t| - 2
    ensures After(Entries(t, f, i) + rest, Quoted(t[k].name)) == After(Entries(t, f, upto) + rest, Quoted(t[k].name))
    decreases upto - i
  {
    hide After, Entries, Quoted, GoodTable;
    if i < upto {
      SkipOneEntry(t, f, i, k, rest);
      SkipEntries(t, f, i + 1, upto, k, rest);
    }
  }

  lemma EntryText(t: Table, f: Fields, i: nat, rest: string)
    requires Typed(f, t) && i < |t|
    ensures Entries(t, f, i) + rest ==
            Quoted(t[i].name) + ([':'] + (ValueText(t[i].ty, f[i]) + Separator(t, i)) + (Entries(t, f, i + 1) + rest))
  {
    hide ValueText, Separator, Quoted;
    Parts(Quoted(t[i].name), ValueText(t[i].ty, f[i]), Separator(t, i), Entries(t, f, i + 1), rest);
  }

  lemma Parts(name: string, value: string, sep: string, tail: string, rest: string)
    ensures name + [':'] + value + sep + tail + rest == name + ([':'] + (value + sep) + (tail + rest))
  {
  }

  /** What follows the printed value of field `k`. */
  function Rest(t: Table, f: Fields, k: nat): string
    requires Typed(f, t) && k < |t|
  {
    Separator(t, k) + Entries(t, f, k + 1) + ['}']
  }

  lemma EntryAtEnd(t: Table, f: Fields, k: nat)
    requires Typed(f, t) && k < |t|
    ensures Entries(t, f, k) + ['}'] == Quoted(t[k].name) + ([':'] + (ValueText(t[k].ty, f[k]) + Rest(t, f, k)))
  {
    hide ValueText, Separator, Quoted, Entries;
    EntryText(t, f, k, ['}']);
    Grouped(ValueText(t[k].ty, f[k]), Separator(t, k), Entries(t, f, k + 1), ['}']);
  }

  lemma Grouped(value: string, sep: string, tail: string, rest: string)
    ensures [':'] + (value + sep) + (tail + rest) == [':'] + (value + (sep + tail + rest))
  {
  }

  lemma FoundHere(pat: string, rest: string)
    ensures After(pat + rest, pat) == Some(rest)
  {
    assert (pat + rest)[|pat|..] == rest;
  }

  lemma ValueAt(text: string, key: string, value: string)
    requires IsName(key) && value != [] && !IsSpace(value[0])
    requires After(text, Quoted(key)) == Some([':'] + value)
    ensures ValueOf(text, key) == Some(value)
  {
    var t := [':'] + value;
    assert SkipSpace(t) == t && t[1..] == value;
  }

  lemma ValueStart(ty: FieldType, v: Value)
    requires HasType(v, ty)
    ensures ValueText(ty, v) != [] && !IsSpace(ValueText(ty, v)[0])
  {
  }

  /** Every field up to the first string is found where it was printed. */
  lemma FoundWhereHeld(t: Table, f: Fields, k: nat)
    requires GoodTable(t) && Typed(f, t) && k <= |t| - 2
    ensures ValueOf(Json(t, f), t[k].name) == Some(ValueText(t[k].ty, f[k]) + Rest(t, f, k))
  {
    var pat := Quoted(t[k].name);
    assert Json(t, f) == ['{'] + (Entries(t, f, 0) + ['}']);
    SkipPlain(['{'], Entries(t, f, 0) + ['}'], pat);
    SkipEntries(t, f, 0, k, k, ['}']);
    var value := ValueText(t[k].ty, f[k]) + Rest(t, f, k);
    EntryAtEnd(t, f, k);
    FoundHere(pat, [':'] + value);
    ValueStart(t[k].ty, f[k]);
    ValueAt(Json(t, f), t[k].name, value);
  }

  // ----- the secret, which follows an arbitrary string -----

  /** A name that ends inside an escaped string's text ends exactly where the string does. */
  lemma {:induction false} NameEndsString(m: string, s: string, tail: string)
    requires forall i :: 0 <= i < |m| ==> Plain(m[i])
    requires m + ['"'] <= Escape(s) + ['"'] + tail
    ensures (Escape(s) + ['"'] + tail)[|m| + 1..] == tail
  {
    var text := Escape(s) + ['"'] + tail;
    assert (m + ['"'])[0] == text[0];
    if s == [] {
      assert text == ['"'] + tail;
    } else if m != [] {
      assert !Special(s[0]);
      assert text[1..] == Escape(s[1..]) + ['"'] + tail;
      assert (m + ['"'])[1..] == m[1..] + ['"'];
      NameEndsString(m[1..], s[1..], tail);
      assert text[|m| + 1..] == text[1..][|m|..];
    }
  }

  /** A search that ends in the text's tail: either right at its start or by going on into it. */
  predicate EndsIn(text: string, m: string, tail: string) {
    After(text, Quoted(m)) == Some(tail) || After(text, Quoted(m)) == After(tail, Quoted(m))
  }

  lemma SearchQuoted(m: string, s: string, tail: string)
    requires IsName(m) && EndsIn(Escape(s) + ['"'] + tail, m, tail)
    ensures EndsIn(['"'] + (Escape(s) + ['"'] + tail), m, tail)
  {
    var rest, pat := Escape(s) + ['"'] + tail, Quoted(m);
    var text := ['"'] + rest;
    assert text[1..] == rest;
    if pat <= text {
      assert pat[1..] <= text[1..] && pat[1..] == m + ['"'];
      NameEndsString(m, s, tail);
      assert text[|pat|..] == rest[|m| + 1..];
    }
  }

  /** Inside a string's text a name is found nowhere, except that it may end together with the string. */
  lemma {:induction false} SearchString(m: string, s: string, tail: string)
    requires IsName(m) && tail != [] && !Plain(tail[0])
    ensures EndsIn(Escape(s) + ['"'] + tail, m, tail)
  {
    var text := Escape(s) + ['"'] + tail;
    if s == [] {
      assert text == ['"'] + tail;
      SkipQuote(m, tail);
    } else {
      var rest := Escape(s[1..]) + ['"'] + tail;
      SearchString(m, s[1..], tail);
      if s[0] == '"' {
        assert text == ['\\'] + (['"'] + rest);
        SkipPlain(['\\'], ['"'] + rest, Quoted(m));
        SearchQuoted(m, s[1..], tail);
      } else {
        var c := if s[0] == '\\' then ['\\', '\\'] else [s[0]];
        assert text == c + rest;
        SkipPlain(c, rest, Quoted(m));
      }
    }
  }

  /** The text from the value of the public string on, where the secret's entry follows. */
  function SecretTail(m: string): string {
    [','] + (Quoted(m) + [':', '"', '"', '}'])
  }

  lemma SecretEntry(t: Table, f: Fields)
    requires GoodTable(t) && Typed(f, t)
    ensures var p := |t| - 1; Entries(t, f, p) + ['}'] == Quoted(t[p].name) + [':', '"', '"', '}']
  {
    var p := |t| - 1;
    EntryAtEnd(t, f, p);
    assert ValueText(t[p].ty, f[p]) == ['"', '"'];
    assert [':'] + (['"', '"'] + Rest(t, f, p)) == [':', '"', '"', '}'];
  }

  lemma SecretLayout(t: Table, f: Fields)
    requires GoodTable(t) && Typed(f, t)
    ensures var s, tail := |t| - 2, SecretTail(t[|t| - 1].name);
            Entries(t, f, s) + ['}'] == Quoted(t[s].name) + ([':'] + [] + (['"'] + (Escape(f[s].s) + ['"'] + tail)))
  {
    var s, tail := |t| - 2, SecretTail(t[|t| - 1].name);
    EntryAtEnd(t, f, s);
    SecretEntry(t, f);
    assert Rest(t, f, s) == [','] + (Entries(t, f, s + 1) + ['}']);
    Regroup(Escape(f[s].s), tail);
  }

  lemma Regroup(e: string, tail: string)
    ensures [':'] + (['"'] + e + ['"'] + tail) == [':'] + [] + (['"'] + (e + ['"'] + tail))
  {
  }

  /** The search for the secret from the public string on, whatever that string is. */
  lemma SearchTail(m: string, n: string, s: string, text: string)
    requires IsName(m) && IsName(n) && m != n
    requires text == Quoted(n) + ([':'] + [] + (['"'] + (Escape(s) + ['"'] + SecretTail(m))))
    ensures After(text, Quoted(m)) in {Some(SecretTail(m)), Some([':', '"', '"', '}'])}
  {
    var tail := SecretTail(m);
    SkipEntry(m, n, [], ['"'] + (Escape(s) + ['"'] + tail));
    SearchString(m, s, tail);
    SearchQuoted(m, s, tail);
    SkipPlain([','], Quoted(m) + [':', '"', '"', '}'], Quoted(m));
    FoundHere(Quoted(m), [':', '"', '"', '}']);
  }

  /** Whatever the public string spells, the secret's name is found in its own empty entry or not at all. */
  lemma SecretFoundEmpty(t: Table, f: Fields)
    requires GoodTable(t) && Typed(f, t)
    ensures var r := ValueOf(Json(t, f), t[|t| - 1].name); r == None || r == Some(['"', '"', '}'])
  {
    var p, s := |t| - 1, |t| - 2;
    var m, pat := t[p].name, Quoted(t[p].name);
    assert Json(t, f) == ['{'] + (Entries(t, f, 0) + ['}']);
    SkipPlain(['{'], Entries(t, f, 0) + ['}'], pat);
    SkipEntries(t, f, 0, s, p, ['}']);
    SecretLayout(t, f);
    SearchTail(m, t[s].name, f[s].s, Entries(t, f, s) + ['}']);
    ValueFrom(Json(t, f), m);
  }

  lemma ValueFrom(text: string, m: string)
    requires IsName(m) && After(text, Quoted(m)) in {Some(SecretTail(m)), Some([':', '"', '"', '}'])}
    ensures ValueOf(text, m) in {None, Some(['"', '"', '}'])}
  {
    var own: string := ['"', '"', '}'];
    if After(text, Quoted(m)) == Some([':', '"', '"', '}']) {
      assert [':'] + own == [':', '"', '"', '}'];
      ValueAt(text, m, own);
    } else {
      assert SkipSpace(SecretTail(m)) == SecretTail(m);
    }
  }

  // ----- the round trip -----

  lemma BoolReads(b: bool, rest: string)
    ensures BoolValue((if b then "true" else "false") + rest) == Ok(b)
  {
    if !b {
      assert ("false" + rest)[0] != "true"[0];
    }
  }

  lemma NumberReads(n: nat, max: nat, rest: string)
    requires n <= max <= ULONG_MAX && rest != [] && !IsDigit(rest[0])
    ensures UintValue(Decimal(n) + rest, max) == Ok(n)
  {
    DecimalRoundTrip(n, rest);
    assert (Decimal(n) + rest)[0] == Decimal(n)[0];
  }

  lemma Opened(body: string, size: nat)
    ensures StringValue(['"'] + body, size) == Unescape(body, 0, size)
  {
    assert (['"'] + body)[1..] == body;
  }

  lemma StringReads(s: string, size: nat, rest: string)
    requires |s| < size
    ensures StringValue(['"'] + (Escape(s) + ['"'] + rest), size) == Ok(s)
  {
    Opened(Escape(s) + ['"'] + rest, size);
    UnescapeEscape(s, rest, 0, size);
  }

  lemma PrintedReads(ty: FieldType, v: Value, rest: string)
    requires HasType(v, ty) && (ty.Text? ==> !ty.secret && |v.s| < ty.capacity)
    requires rest != [] && !IsDigit(rest[0])
    ensures ReadValue(ty, ValueText(ty, v) + rest) == Ok(Some(v))
  {
    match ty
    case Bool => BoolReads(v.b, rest);
    case Text(capacity, _) =>
      StringReads(v.s, capacity, rest);
      assert ValueText(ty, v) + rest == ['"'] + (Escape(v.s) + ['"'] + rest);
    case _ => NumberReads(v.n, Max(ty), rest);
  }

  lemma RestStart(t: Table, f: Fields, i: nat)
    requires Typed(f, t) && i < |t|
    ensures Rest(t, f, i) != [] && !IsDigit(Rest(t, f, i)[0])
  {
  }

  lemma SecretKept(ty: FieldType)
    requires ty.Text? && ty.secret && ty.capacity > 0
    ensures ReadValue(ty, ['"', '"', '}']) == Ok(None)
  {
    assert ['"', '"', '}'][1..] == ['"', '}'];
  }

  lemma PublicText(t: Table, i: nat)
    requires GoodTable(t) && i < |t| - 1
    ensures t[i].ty.Text? ==> i == |t| - 2 && !t[i].ty.secret
  {
  }

  lemma SsidText(t: Table, f: Fields, i: nat)
    requires GoodTable(t) && Typed(f, t) && i < |t| - 1 && |f[|t| - 2].s| < t[|t| - 2].ty.capacity
    ensures t[i].ty.Text? ==> |f[i].s| < t[i].ty.capacity
  {
    PublicText(t, i);
  }

  lemma ReadPublic(t: Table, g: Fields, f: Fields, i: nat)
    requires GoodTable(t) && Typed(f, t) && |g| == |t| && i < |t| - 1 && |f[|t| - 2].s| < t[|t| - 2].ty.capacity
    ensures ReadField(t, g, Json(t, f), i) == Ok(g[i := f[i]])
  {
    hide Json, Rest, ValueText, ValueOf, ReadValue, GoodTable;
    FoundWhereHeld(t, f, i);
    RestStart(t, f, i);
    PublicText(t, i);
    SsidText(t, f, i);
    PrintedReads(t[i].ty, f[i], Rest(t, f, i));
  }

  lemma ReadSecret(t: Table, g: Fields, f: Fields)
    requires GoodTable(t) && Typed(f, t) && |g| == |t|
    ensures ReadField(t, g, Json(t, f), |t| - 1) == Ok(g)
  {
    SecretFoundEmpty(t, f);
    SecretKept(t[|t| - 1].ty);
  }

  /** Reading field by field copies every field but the secret. */
  lemma {:induction false} ReadCopies(t: Table, g: Fields, f: Fields, json: string, i: nat)
    requires GoodTable(t) && Typed(f, t) && |g| == |t| && i <= |t| && |f[|t| - 2].s| < t[|t| - 2].ty.capacity
    requires json == Json(t, f)
    requires forall j :: 0 <= j < i && j < |t| - 1 ==> g[j] == f[j]
    ensures ReadFields(t, g, json, i) == Ok(f[|t| - 1 := g[|t| - 1]])
    decreases |t| - i
  {
    if i == |t| {
      assert g == f[|t| - 1 := g[|t| - 1]];
    } else if i == |t| - 1 {
      ReadSecret(t, g, f);
      ReadCopies(t, g, f, json, i + 1);
    } else {
      ReadPublic(t, g, f, i);
      ReadCopies(t, g[i := f[i]], f, json, i + 1);
    }
  }

  lemma Restores(t: Table, a: Fields, b: Fields)
    requires GoodTable(t) && |t| == FIELDS && t[SSID].ty.capacity == SSID_MAX_LEN
    requires Typed(a, t) && Typed(b, t) && Acceptable(a) && Acceptable(b)
    ensures Applied(t, b, Json(t, a)) == Ok(a[PASS := b[PASS]])
  {
    ReadCopies(t, b, a, Json(t, a), 0);
  }

  /**
   Round trip: the JSON of settings `a`, applied to a device that runs settings `b`, puts
   exactly the fields of `a` in force with the password of `b`, for every SSID, even one
   made of quotes, backslashes or field names.
   */
  lemma JsonRestores(a: Fields, b: Fields)
    requires Typed(a, SettingsRecord.Table()) && Typed(b, SettingsRecord.Table()) && Acceptable(a) && Acceptable(b)
    ensures Applied(SettingsRecord.Table(), b, Json(SettingsRecord.Table(), a)) == Ok(a[PASS := b[PASS]])
  {
    TableIsGood();
    Restores(SettingsRecord.Table(), a, b);
  }

  lemma SamePassword(a: Fields)
    requires |a| == FIELDS
    ensures a[PASS := a[PASS]] == a
  {
  }

  /** Reading back its own JSON changes no field. */
  lemma JsonIdentity(a: Fields)
    requires Typed(a, SettingsRecord.Table()) && Acceptable(a)
    ensures Applied(SettingsRecord.Table(), a, Json(SettingsRecord.Table(), a)) == Ok(a)
  {
    JsonRestores(a, a);
    SamePassword(a);
  }

  // ----- the buffer -----

  lemma ValueSize(ty: FieldType, v: Value)
    requires HasType(v, ty)
    ensures |ValueText(ty, v)| <= if ty.Text? then (if ty.secret then 2 else 2 * ty.capacity + 2) else 10
  {
    match ty
    case Bool =>
    case Text(_, _) => EscapeSize(v.s);
    case _ => NumberSize(v.n);
  }

  lemma NumberSize(n: nat)
    requires n <= 0xffff_ffff
    ensures |Decimal(n)| <= 10
  {
    assert Power10(5) == 100_000;
    assert Power10(10) == 10_000_000_000;
    DecimalSize(n, 10, Power10(10));
  }

  lemma {:induction false} EntriesSize(t: Table, f: Fields, i: nat)
    requires GoodTable(t) && Typed(f, t) && i <= |t|
    ensures |Entries(t, f, i)| <= 38 * (|t| - i) + if i <= |t| - 2 then 2 * t[|t| - 2].ty.capacity else 0
    decreases |t| - i
  {
    hide ValueText, Entry;
    if i < |t| {
      EntrySize(t, f, i);
      EntriesSize(t, f, i + 1);
    }
  }

  lemma EntrySize(t: Table, f: Fields, i: nat)
    requires GoodTable(t) && Typed(f, t) && i < |t|
    ensures |Entry(t, f, i)| <= 38 + if i == |t| - 2 then 2 * t[|t| - 2].ty.capacity else 0
  {
    hide ValueText;
    ValueSize(t[i].ty, f[i]);
  }

  lemma JsonSize(t: Table, f: Fields)
    requires GoodTable(t) && |t| == FIELDS && t[SSID].ty.capacity == SSID_MAX_LEN && Typed(f, t)
    ensures |Json(t, f)| < JSON_BUF_SIZE_MAX
  {
    EntriesSize(t, f, 0);
  }

  /** The page's buffer holds the JSON of any settings. */
  lemma JsonFits(f: Fields)
    requires Typed(f, SettingsRecord.Table())
    ensures |Json(SettingsRecord.Table(), f)| < JSON_BUF_SIZE_MAX
  {
    TableIsGood();
    JsonSize(SettingsRecord.Table(), f);
  }

  // ----- what is read has the right type -----

  lemma {:induction false} EscapeNoZero(s: string)
    requires NoZero(s)
    ensures NoZero(Escape(s))
  {
    if s != [] {
      EscapeNoZero(s[1..]);
    }
  }

  lemma EntryNoZero(t: Table, f: Fields, i: nat)
    requires GoodTable(t) && Typed(f, t) && i < |t|
    ensures NoZero(Entry(t, f, i))
  {
    assert NoZero(t[i].name);
    if t[i].ty.Text? {
      EscapeNoZero(f[i].s);
    }
    assert NoZero(ValueText(t[i].ty, f[i]));
  }

  lemma NoZeroConcat(a: string, b: string)
    requires NoZero(a) && NoZero(b)
    ensures NoZero(a + b)
  {
  }

  /** The printed text is a C string: no zero cuts it short. */
  lemma {:induction false} EntriesNoZero(t: Table, f: Fields, i: nat)
    requires GoodTable(t) && Typed(f, t) && i <= |t|
    ensures NoZero(Entries(t, f, i))
    decreases |t| - i
  {
    if i < |t| {
      var head, tail := Entry(t, f, i), Entries(t, f, i + 1);
      EntryNoZero(t, f, i);
      EntriesNoZero(t, f, i + 1);
      NoZeroConcat(head, tail);
      assert Entries(t, f, i) == head + tail;
    }
  }

  lemma {:induction false} UnescapedFits(s: string, len: nat, size: nat)
    requires NoZero(s) && len <= size
    ensures var r := Unescape(s, len, size); r.Ok? ==> NoZero(r.value) && len + |r.value| <= size
    decreases |s|
  {
    if s != [] && s[0] != '"' && len + 1 < size {
      var escaped := s[0] == '\\';
      if !escaped || |s| > 1 {
        UnescapedFits(if escaped then s[2..] else s[1..], len + 1, size);
      }
    }
  }

  lemma ReadHasType(ty: FieldType, val: string)
    requires NoZero(val)
    ensures var r := ReadValue(ty, val); r.Ok? && r.value.Some? ==> HasType(r.value.value, ty)
  {
    if ty.Text? && val != [] {
      UnescapedFits(val[1..], 0, ty.capacity);
    }
  }

  lemma {:induction false} AfterNoZero(s: string, pat: string)
    requires NoZero(s)
    ensures After(s, pat).Some? ==> NoZero(After(s, pat).value)
  {
    if !(pat <= s) && s != [] {
      AfterNoZero(s[1..], pat);
    }
  }

  lemma {:induction false} SkipNoZero(s: string)
    requires NoZero(s)
    ensures NoZero(SkipSpace(s))
  {
    if s != [] && IsSpace(s[0]) {
      SkipNoZero(s[1..]);
    }
  }

  lemma ValueNoZero(json: string, key: string)
    requires NoZero(json)
    ensures ValueOf(json, key).Some? ==> NoZero(ValueOf(json, key).value)
  {
    AfterNoZero(json, Quoted(key));
    if After(json, Quoted(key)).Some? {
      var u := SkipSpace(After(json, Quoted(key)).value);
      SkipNoZero(After(json, Quoted(key)).value);
      if u != [] {
        SkipNoZero(u[1..]);
      }
    }
  }

  class WebSettings {
    const table: Table
    var active: Fields

    ghost predicate Valid()
      reads this
    {
      Typed(active, table) && (forall f :: Typed(f, table) ==> Shaped(f))
    }

    constructor (f: Fields)
      requires Typed(f, SettingsRecord.Table())
      ensures Valid() && active == f && table == SettingsRecord.Table()
    {
      table := SettingsRecord.Table();
      active := f;
      forall g | Typed(g, SettingsRecord.Table()) ensures Shaped(g) {
        TypedIsShaped(g);
      }
    }

    /** get_settings_json: fails exactly when the text and its terminator do not fit. */
    method Get(buf: array<char>) returns (ok: bool)
      requires Valid() && buf.Length > 0
      modifies buf
      ensures ok <==> |Json(table, active)| < buf.Length
      ensures ok ==> Holds(buf, Json(table, active))
    {
      buf[0] := '\0';
      var pos: nat;
      ok, pos := Append(buf, 0, [], ['{']);
      if !ok {
        return;
      }
      assert [] + ['{'] == ['{'];
      ok, pos := PutEntries(buf, pos);
      if !ok {
        return;
      }
      ok, pos := Append(buf, pos, ['{'] + Entries(table, active, 0), ['}']);
    }

    method PutEntries(buf: array<char>, pos: nat) returns (ok: bool, next: nat)
      requires Valid() && pos == 1 && Holds(buf, ['{'])
      modifies buf
      ensures ok ==> next == 1 + |Entries(table, active, 0)| && Holds(buf, ['{'] + Entries(table, active, 0))
      ensures ok <==> 1 + |Entries(table, active, 0)| < buf.Length
    {
      ghost var done: string := ['{'];
      ghost var all := ['{'] + Entries(table, active, 0);
      ok, next := true, pos;
      var i := 0;
      while i < |table|
        invariant i <= |table| && ok
        invariant next == |done| && Holds(buf, done)
        invariant all == done + Entries(table, active, i)
      {
        EntriesStep(all, done, i);
        ok, next := PutEntry(buf, next, done, i);
        if !ok {
          return;
        }
        done := done + Entry(table, active, i);
        i := i + 1;
      }
    }

    lemma EntriesStep(all: string, done: string, i: nat)
      requires Valid() && i < |table| && all == done + Entries(table, active, i)
      ensures all == done + Entry(table, active, i) + Entries(table, active, i + 1)
      ensures |all| >= |done| + |Entry(table, active, i)|
    {
    }

    /** One entry: a string takes three appends. */
    method PutEntry(buf: array<char>, pos: nat, ghost done: string, i: nat) returns (ok: bool, next: nat)
      requires Valid() && i < |table| && pos == |done| && Holds(buf, done)
      modifies buf
      ensures ok <==> pos + |Entry(table, active, i)| < buf.Length
      ensures ok ==> next == pos + |Entry(table, active, i)| && Holds(buf, done + Entry(table, active, i))
    {
      var m, v := table[i], active[i];
      if m.ty.Text? {
        ok, next := PutString(buf, pos, done, Quoted(m.name) + [':', '"'], v.s, m.ty.secret,
            ['"'] + Separator(table, i));
        StringEntry(i);
      } else {
        ok, next := Append(buf, pos, done, Quoted(m.name) + [':'] + ValueText(m.ty, v) + Separator(table, i));
      }
    }

    lemma StringEntry(i: nat)
      requires Valid() && i < |table| && table[i].ty.Text?
      ensures Entry(table, active, i) == Quoted(table[i].name) + [':', '"']
                + (if table[i].ty.secret then [] else Escape(active[i].s)) + (['"'] + Separator(table, i))
    {
    }

    lemma StringParts(done: string, head: string, text: string, foot: string)
      ensures done + (head + text + foot) == done + head + text + foot
      ensures done + head + [] == done + head
    {
    }

    method PutString(buf: array<char>, pos: nat, ghost done: string, head: string, str: string, secret: bool,
        foot: string)
      returns (ok: bool, next: nat)
      requires pos == |done| && Holds(buf, done)
      modifies buf
      ensures var text := head + (if secret then [] else Escape(str)) + foot;
              (ok <==> pos + |text| < buf.Length) && (ok ==> next == pos + |text| && Holds(buf, done + text))
    {
      ok, next := Append(buf, pos, done, head);
      ghost var put := done + head;
      if ok && !secret {
        ok, next := AppendString(buf, next, put, str);
        put := put + Escape(str);
      }
      if !ok {
        return;
      }
      StringParts(done, head, if secret then [] else Escape(str), foot);
      ok, next := Append(buf, next, put, foot);
    }

    /** set_settings_json: the active settings change only if every value is valid, and then all at once. */
    method Set(json: string) returns (r: Result<Fields>)
      requires Valid() && NoZero(json)
      modifies this
      ensures Valid() && r == Applied(table, old(active), json)
      ensures active == if r.Ok? then r.value else old(active)
      ensures r.Ok? ==> Acceptable(active)
    {
      var parsed := active;
      var i := 0;
      while i < |table|
        invariant active == old(active)
        invariant i <= |table| && Typed(parsed, table)
        invariant ReadFields(table, active, json, 0) == ReadFields(table, parsed, json, i)
      {
        var val := FindValue(json, table[i].name);
        if val.Some? {
          ValueNoZero(json, table[i].name);
          ReadHasType(table[i].ty, val.value);
          var v := ReadOne(table[i].ty, val.value);
          if v.Err? {
            return Err(v.error);
          }
          if v.value.Some? {
            parsed := parsed[i := v.value.value];
          }
        }
        i := i + 1;
      }
      var ok := Validate(parsed);
      if !ok {
        return Err(ParamInvalid);
      }
      active := parsed;
      return Ok(active);
    }

    /** The switch over the field types. */
    method ReadOne(ty: FieldType, val: string) returns (r: Result<Option<Value>>)
      ensures r == ReadValue(ty, val)
    {
      match ty
      case Bool =>
        var b := BoolValue(val);
        return if b.Ok? then Ok(Some(Flag(b.value))) else Err(b.error);
      case Text(capacity, secret) =>
        var s := ParseString(val, capacity);
        if s.Err? {
          return Err(s.error);
        }
        return Ok(if secret && s.value == [] then None else Some(Str(s.value)));
      case _ =>
        var n := ParseUint(val, Max(ty));
        return if n.Ok? then Ok(Some(Num(n.value))) else Err(n.error);
    }
  }
}
