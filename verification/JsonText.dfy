/**
 The JSON text helpers of the web server: a value is located by searching for its quoted key,
 strings are escaped and unescaped, numbers are printed and parsed in decimal. C strings are
 sequences without zero characters; a pointer into one is the suffix it points at.
 */
module JsonText {
  import opened Common
  import opened DecimalText

  datatype Error = ParamInvalid | Overflow

  datatype Result<+T> = Ok(value: T) | Err(error: Error)

  const KEY_BUF_SIZE: nat := 48

  // ----- locating a value -----

  /** strstr, returning what follows the first occurrence of `pat`. */
  function After(s: string, pat: string): Option<string> {
    if pat <= s then Some(s[|pat|..]) else if s == [] then None else After(s[1..], pat)
  }

  predicate IsSpace(c: char) {
    c == ' ' || c == '\t' || c == '\r' || c == '\n'
  }

  function SkipSpace(s: string): string {
    if s != [] && IsSpace(s[0]) then SkipSpace(s[1..]) else s
  }

  function Quoted(key: string): string {
    ['"'] + key + ['"']
  }

  /** The text of the value that follows the first occurrence of the quoted key, if a colon comes next. */
  function ValueOf(json: string, key: string): Option<string> {
    if |key| + 2 >= KEY_BUF_SIZE then None
    else
      match After(json, Quoted(key))
      case None => None
      case Some(t) =>
        var u := SkipSpace(t);
        if u != [] && u[0] == ':' then Some(SkipSpace(u[1..])) else None
  }

  /** json_find_value. */
  method FindValue(json: string, key: string) returns (r: Option<string>)
    ensures r == ValueOf(json, key)
  {
    var pattern := Quoted(key);
    if |pattern| >= KEY_BUF_SIZE {
      return None;
    }
    var found := After(json, pattern);
    if found.None? {
      return None;
    }
    var start := found.value;
    start := SkipSpaces(start);
    if start == [] || start[0] != ':' {
      return None;
    }
    start := SkipSpaces(start[1..]);
    return Some(start);
  }

  method SkipSpaces(from: string) returns (start: string)
    ensures start == SkipSpace(from)
  {
    start := from;
    while start != [] && IsSpace(start[0])
      invariant SkipSpace(from) == SkipSpace(start)
      decreases |start|
    {
      start := start[1..];
    }
  }

  // ----- strings -----

  predicate Special(c: char) {
    c == '"' || c == '\\'
  }

  function Escape(s: string): string {
    if s == [] then [] else (if Special(s[0]) then ['\\', s[0]] else [s[0]]) + Escape(s[1..])
  }

  lemma {:induction false} EscapeSize(s: string)
    ensures |s| <= |Escape(s)| <= 2 * |s|
  {
    if s != [] {
      EscapeSize(s[1..]);
    }
  }

  /** The contents of a string literal after its opening quote, with `len` characters already stored. */
  function Unescape(s: string, len: nat, size: nat): Result<string> {
    if s == [] then Err(ParamInvalid)
    else if s[0] == '"' then Ok([])
    else
      var escaped := s[0] == '\\';
      if escaped && (|s| == 1 || (!Special(s[1]) && s[1] != '/')) then Err(ParamInvalid)
      else if len + 1 >= size then Err(Overflow)
      else
        var c, rest := if escaped then s[1] else s[0], if escaped then s[2..] else s[1..];
        match Unescape(rest, len + 1, size)
        case Ok(t) => Ok([c] + t)
        case Err(e) => Err(e)
  }

  /** Unescaping undoes escaping for every string that leaves room for the terminator. */
  lemma {:induction false} UnescapeEscape(s: string, rest: string, len: nat, size: nat)
    requires len + |s| < size
    ensures Unescape(Escape(s) + ['"'] + rest, len, size) == Ok(s)
  {
    var text := Escape(s) + ['"'] + rest;
    if s != [] {
      var tail := Escape(s[1..]) + ['"'] + rest;
      UnescapeEscape(s[1..], rest, len + 1, size);
      assert if Special(s[0]) then text == ['\\', s[0]] + tail else text == [s[0]] + tail;
      assert text[if Special(s[0]) then 2 else 1..] == tail;
      assert s == [s[0]] + s[1..];
    }
  }

  function StringValue(val: string, size: nat): Result<string> {
    if val == [] || val[0] != '"' then Err(ParamInvalid) else Unescape(val[1..], 0, size)
  }

  /** json_parse_string. */
  method ParseString(val: string, size: nat) returns (r: Result<string>)
    ensures r == StringValue(val, size)
  {
    if val == [] || val[0] != '"' {
      return Err(ParamInvalid);
    }
    var p := val[1..];
    var out: string := [];
    assert forall t: string :: out + t == t;
    while true
      invariant StringValue(val, size) == Prepend(out, Unescape(p, |out|, size))
      decreases |p|
    {
      if p == [] {
        return Err(ParamInvalid);
      }
      if p[0] == '"' {
        assert out + [] == out;
        return Ok(out);
      }
      ghost var q := p;
      var c := p[0];
      p := p[1..];
      if c == '\\' {
        if p == [] || (p[0] != '"' && p[0] != '\\' && p[0] != '/') {
          return Err(ParamInvalid);
        }
        c := p[0];
        p := p[1..];
      }
      if |out| + 1 >= size {
        return Err(Overflow);
      }
      assert forall t: string :: out + ([c] + t) == out + [c] + t;
      out := out + [c];
    }
  }

  function Prepend(a: string, r: Result<string>): Result<string> {
    match r
    case Ok(t) => Ok(a + t)
    case Err(e) => Err(e)
  }

  // ----- numbers -----

  function UintValue(val: string, max: nat): Result<nat> {
    if val == [] || !IsDigit(val[0]) then Err(ParamInvalid)
    else
      var n := LeadingNumber(val, 0);
      if n > ULONG_MAX || n > max then Err(ParamInvalid) else Ok(n)
  }

  /** json_parse_uint. */
  method ParseUint(val: string, max: nat) returns (r: Result<nat>)
    ensures r == UintValue(val, max)
  {
    if val == [] || val[0] < '0' || val[0] > '9' {
      return Err(ParamInvalid);
    }
    var v, range := Strtoul(val);
    if range || v > max {
      return Err(ParamInvalid);
    }
    return Ok(v);
  }

  /** json_parse_bool. */
  function BoolValue(val: string): Result<bool> {
    if "true" <= val then Ok(true) else if "false" <= val then Ok(false) else Err(ParamInvalid)
  }

  // ----- appending to a bounded buffer -----

  /** The buffer holds the C string `s`. */
  ghost predicate Holds(buf: array<char>, s: string)
    reads buf
  {
    |s| < buf.Length && buf[..|s|] == s && buf[|s|] == '\0'
  }

  /** json_append: formatted text is cut at the end of the buffer, which is reported. */
  method Append(buf: array<char>, pos: nat, ghost done: string, text: string) returns (ok: bool, next: nat)
    requires pos == |done| && Holds(buf, done)
    modifies buf
    ensures ok <==> pos + |text| < buf.Length
    ensures ok ==> next == pos + |text| && Holds(buf, done + text)
    ensures !ok ==> next == pos
  {
    var room := buf.Length - pos - 1;
    var n := if |text| < room then |text| else room;
    forall i | 0 <= i < n {
      buf[pos + i] := text[i];
    }
    buf[pos + n] := '\0';
    ok := pos + |text| < buf.Length;
    next := if ok then pos + |text| else pos;
    assert ok ==> buf[..next] == done + text;
  }

  lemma Associates(a: string, b: string, c: string)
    ensures a + (b + c) == a + b + c
  {
  }

  /** json_append_string: the room for each character, or for it and its backslash, is checked first. */
  method AppendString(buf: array<char>, pos: nat, ghost done: string, str: string) returns (ok: bool, next: nat)
    requires pos == |done| && Holds(buf, done)
    modifies buf
    ensures ok <==> pos + |Escape(str)| < buf.Length
    ensures ok ==> next == pos + |Escape(str)| && Holds(buf, done + Escape(str))
  {
    next := pos;
    var p := str;
    ghost var put: string := [];
    while p != []
      invariant next == pos + |put| < buf.Length
      invariant Escape(str) == put + Escape(p)
      invariant buf[..next] == done + put
      decreases |p|
    {
      var c := p[0];
      var escape := c == '"' || c == '\\';
      if next + (if escape then 2 else 1) >= buf.Length {
        return false, next;
      }
      ghost var head: string := if escape then ['\\', c] else [c];
      Associates(put, head, Escape(p[1..]));
      next := PutChar(buf, next, c, escape);
      Associates(done, put, head);
      put := put + head;
      p := p[1..];
    }
    buf[next] := '\0';
    assert put == Escape(str);
    ok := true;
  }

  /** A character, with a backslash before it if it needs one. */
  method PutChar(buf: array<char>, pos: nat, c: char, escape: bool) returns (next: nat)
    requires pos + (if escape then 2 else 1) < buf.Length
    modifies buf
    ensures next == pos + if escape then 2 else 1
    ensures buf[..next] == old(buf[..pos]) + if escape then ['\\', c] else [c]
  {
    next := pos;
    if escape {
      buf[next] := '\\';
      next := next + 1;
    }
    buf[next] := c;
    next := next + 1;
  }

  // ----- any other layout -----

  predicate AllSpace(s: string) {
    forall i :: 0 <= i < |s| ==> s[i] in {' ', '\t', '\r', '\n'}
  }

  lemma {:induction false} SkipsSpace(space: string, rest: string)
    requires AllSpace(space) && (rest == [] || rest[0] !in {' ', '\t', '\r', '\n'})
    ensures SkipSpace(space + rest) == rest
  {
    if space == [] {
      assert space + rest == rest;
    } else {
      assert (space + rest)[1..] == space[1..] + rest;
      SkipsSpace(space[1..], rest);
    }
  }

  /** The pattern starts nowhere before place `n`. */
  ghost predicate NotBefore(s: string, pat: string, n: nat)
    requires n <= |s|
  {
    forall p :: 0 <= p < n ==> !(pat <= s[p..])
  }

  lemma {:induction false} AfterFirst(s: string, pat: string, n: nat)
    requires n <= |s| && NotBefore(s, pat, n) && pat <= s[n..]
    ensures After(s, pat) == Some(s[n..][|pat|..])
    decreases n
  {
    assert s[0..] == s;
    if n > 0 {
      assert !(pat <= s[0..]);
      forall p | 0 <= p < n - 1
        ensures !(pat <= s[1..][p..])
      {
        assert s[1..][p..] == s[p + 1..];
      }
      assert s[1..][n - 1..] == s[n..];
      AfterFirst(s[1..], pat, n - 1);
    }
  }

  lemma {:induction false} AfterNone(s: string, pat: string)
    requires NotBefore(s, pat, |s|) && pat != []
    ensures After(s, pat) == None
  {
    assert s[0..] == s;
    if s != [] {
      assert !(pat <= s[0..]);
      forall p | 0 <= p < |s| - 1
        ensures !(pat <= s[1..][p..])
      {
        assert s[1..][p..] == s[p + 1..];
      }
      AfterNone(s[1..], pat);
    }
  }

  /** A value is found behind its key's first occurrence, with any white space around the colon. */
  lemma SpacedValue(before: string, key: string, left: string, right: string, rest: string)
    requires |key| < 46 && AllSpace(left) && AllSpace(right) && (rest == [] || rest[0] !in {' ', '\t', '\r', '\n'})
    requires NotBefore(before + (Quoted(key) + (left + ([':'] + (right + rest)))), Quoted(key), |before|)
    ensures ValueOf(before + (['"'] + key + ['"'] + (left + ([':'] + (right + rest)))), key) == Some(rest)
  {
    var tail := left + ([':'] + (right + rest));
    var s := before + (Quoted(key) + tail);
    assert s[|before|..] == Quoted(key) + tail;
    AfterFirst(s, Quoted(key), |before|);
    assert (Quoted(key) + tail)[|Quoted(key)|..] == tail;
    SkipsSpace(left, [':'] + (right + rest));
    assert ([':'] + (right + rest))[1..] == right + rest;
    SkipsSpace(right, rest);
  }

  /** A key that stands nowhere has no value. */
  lemma AbsentValue(json: string, key: string)
    requires NotBefore(json, Quoted(key), |json|)
    ensures ValueOf(json, key) == None
  {
    AfterNone(json, Quoted(key));
  }

  /** A string may be written with or without a backslash before a solidus, and must have one before the other two. */
  ghost predicate Writes(text: string, s: string)
    decreases |text|
  {
    if s == [] then text == []
    else
      || (text != [] && text[0] == s[0] && s[0] != '"' && s[0] != '\\' && Writes(text[1..], s[1..]))
      || (|text| > 1 && text[0] == '\\' && text[1] == s[0] && s[0] in {'"', '\\', '/'} && Writes(text[2..], s[1..]))
  }

  /**
   Every spelling of a string is read as the string if it fits with its terminator, and overflows
   the field if it does not.
   */
  lemma {:induction false} SpellingRead(text: string, s: string, rest: string, len: nat, size: nat)
    requires Writes(text, s) && len < size
    ensures Unescape(text + (['"'] + rest), len, size) == if len + |s| < size then Ok(s) else Err(Overflow)
    decreases |text|
  {
    var all := text + (['"'] + rest);
    if s != [] {
      assert s == [s[0]] + s[1..];
      var n := if text[0] == s[0] && s[0] != '"' && s[0] != '\\' && Writes(text[1..], s[1..]) then 1 else 2;
      assert all[n..] == text[n..] + (['"'] + rest);
      if len + 1 < size {
        SpellingRead(text[n..], s[1..], rest, len + 1, size);
      }
    }
  }

  /** A string without its closing quote is refused. */
  lemma {:induction false} UnclosedRefused(text: string, s: string, len: nat, size: nat)
    requires Writes(text, s) && len + |s| < size
    ensures Unescape(text, len, size) == Err(ParamInvalid)
    decreases |text|
  {
    if s != [] {
      var n := if text[0] == s[0] && s[0] != '"' && s[0] != '\\' && Writes(text[1..], s[1..]) then 1 else 2;
      UnclosedRefused(text[n..], s[1..], len + 1, size);
    }
  }

  /** Any other character after a backslash is refused. */
  lemma {:induction false} BadEscapeRefused(text: string, s: string, c: char, rest: string, len: nat, size: nat)
    requires Writes(text, s) && len + |s| < size && c !in {'"', '\\', '/'}
    ensures Unescape(text + (['\\', c] + rest), len, size) == Err(ParamInvalid)
    decreases |text|
  {
    var all := text + (['\\', c] + rest);
    if s == [] {
      assert all == ['\\', c] + rest;
    } else {
      var n := if text[0] == s[0] && s[0] != '"' && s[0] != '\\' && Writes(text[1..], s[1..]) then 1 else 2;
      assert all[n..] == text[n..] + (['\\', c] + rest);
      BadEscapeRefused(text[n..], s[1..], c, rest, len + 1, size);
    }
  }

  /** A printed number is read exactly when it is within the limit, and what does not start with a digit is none. */
  lemma NumberRead(n: nat, rest: string, max: nat)
    requires max <= 0xffff_ffff && (rest == [] || rest[0] < '0' || rest[0] > '9')
    ensures UintValue(Decimal(n) + rest, max) == if n <= max then Ok(n) else Err(ParamInvalid)
    ensures UintValue(rest, max) == Err(ParamInvalid)
  {
    DecimalRoundTrip(n, rest);
    assert IsDigit((Decimal(n) + rest)[0]);
  }

  /** Only the two words are truth values. */
  lemma TruthRead(rest: string, val: string)
    ensures BoolValue("true" + rest) == Ok(true) && BoolValue("false" + rest) == Ok(false)
    ensures !("true" <= val) && !("false" <= val) ==> BoolValue(val) == Err(ParamInvalid)
  {
    assert ("true" + rest)[..4] == "true" && ("false" + rest)[..5] == "false";
    assert ("false" + rest)[0] != "true"[0];
  }
}
