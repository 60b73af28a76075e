/**
 Reassembly of an HTTP request from TCP segments: bytes are collected until the header's
 end is found, then until the body announced by Content-Length is complete, and the request
 is handed on once.
 */
module HttpRequest {
  import opened Common
  import opened DecimalText

  const REQUEST_MAX_SIZE: nat := 2048
  const CRLF_CRLF: string := ['\r', '\n', '\r', '\n']
  const LF_LF: string := ['\n', '\n']
  const KEY: string := "content-length:"

  // ----- C strings -----

  /** The C string at the start of some bytes that a zero is known to follow. */
  function CString(s: string): string {
    if s == [] || s[0] == '\0' then [] else [s[0]] + CString(s[1..])
  }

  /** The index of the first occurrence of `pat`. */
  function Find(s: string, pat: string): (r: Option<nat>) {
    if pat <= s then Some(0)
    else if s == [] then None
    else
      match Find(s[1..], pat)
      case None => None
      case Some(p) => Some(p + 1)
  }

  ghost predicate MatchAt(s: string, pat: string, p: nat) {
    p <= |s| && pat <= s[p..]
  }

  lemma {:induction false} FindIsFirst(s: string, pat: string)
    ensures var r := Find(s, pat);
            && (r.Some? ==> MatchAt(s, pat, r.value))
            && (forall q: nat :: MatchAt(s, pat, q) ==> r.Some? && r.value <= q)
  {
    assert s[0..] == s;
    if !(pat <= s) && s != [] {
      FindIsFirst(s[1..], pat);
      var r := Find(s[1..], pat);
      if r.Some? {
        assert s[r.value + 1..] == s[1..][r.value..];
      }
      forall q: nat | MatchAt(s, pat, q) ensures r.Some? && r.value + 1 <= q {
        assert q > 0;
        assert s[q..] == s[1..][q - 1..];
        assert MatchAt(s[1..], pat, q - 1);
      }
    }
  }

  lemma MatchKept(s: string, t: string, pat: string, p: nat)
    requires s <= t && MatchAt(s, pat, p)
    ensures MatchAt(t, pat, p)
  {
    assert s[p..] <= t[p..];
  }

  lemma MatchInside(s: string, t: string, pat: string, p: nat)
    requires s <= t && MatchAt(t, pat, p) && p + |pat| <= |s|
    ensures MatchAt(s, pat, p)
  {
    assert pat == t[p..][..|pat|] == t[p..p + |pat|] == s[p..p + |pat|] == s[p..][..|pat|];
  }

  /** Once found, an occurrence stays the first as more bytes arrive. */
  lemma FindKept(s: string, t: string, pat: string)
    requires s <= t && Find(s, pat).Some?
    ensures Find(t, pat) == Find(s, pat)
  {
    FindIsFirst(s, pat);
    FindIsFirst(t, pat);
    MatchKept(s, t, pat, Find(s, pat).value);
    var p := Find(t, pat).value;
    assert Find(s, pat).value + |pat| <= |s|;
    MatchInside(s, t, pat, p);
  }

  lemma {:induction false} CStringGrows(s: string, t: string)
    requires s <= t
    ensures CString(s) <= CString(t) && |CString(s)| <= |s| && CString(s) <= s
    ensures |CString(s)| < |s| ==> CString(t) == CString(s)
  {
    if s != [] && s[0] != '\0' {
      assert s[0] == t[0] && s[1..] <= t[1..];
      CStringGrows(s[1..], t[1..]);
    }
  }

  // ----- the header's end -----

  /** Where the header ends: at the first CR LF CR LF if there is one, else at the first LF LF. */
  datatype Cut = Cut(at: nat, sep: nat)

  function HeaderEnd(s: string): Option<Cut> {
    match Find(CString(s), CRLF_CRLF)
    case Some(p) => Some(Cut(p, 4))
    case None =>
      match Find(CString(s), LF_LF)
      case Some(p) => Some(Cut(p, 2))
      case None => None
  }

  lemma HeaderEndInside(s: string)
    ensures HeaderEnd(s).Some? ==> HeaderEnd(s).value.at + HeaderEnd(s).value.sep <= |s|
  {
    FindIsFirst(CString(s), CRLF_CRLF);
    FindIsFirst(CString(s), LF_LF);
    CStringGrows(s, s);
  }

  /** No LF LF before the first CR LF CR LF: the two ways to end a header do not compete. */
  ghost predicate Clean(s: string) {
    var p, q := Find(CString(s), CRLF_CRLF), Find(CString(s), LF_LF);
    p.Some? && q.Some? ==> p.value < q.value
  }

  /** The two separators cannot overlap. */
  lemma SeparatorsApart(c: string, p: nat, q: nat)
    requires MatchAt(c, CRLF_CRLF, p) && MatchAt(c, LF_LF, q)
    ensures q + 2 <= p || p + 3 <= q
  {
    assert c[p] == c[p..][0] == '\r' && c[p + 1] == c[p..][1] == '\n';
    assert c[p + 2] == c[p..][2] == '\r' && c[p + 3] == c[p..][3] == '\n';
    assert c[q] == c[q..][0] == '\n' && c[q + 1] == c[q..][1] == '\n';
  }

  lemma CleanCutKept(s: string, t: string)
    requires s <= t && Clean(t)
    ensures Clean(s) && (HeaderEnd(s).Some? ==> HeaderEnd(t) == HeaderEnd(s))
  {
    var c, d := CString(s), CString(t);
    CStringGrows(s, t);
    FindIsFirst(c, CRLF_CRLF);
    FindIsFirst(c, LF_LF);
    FindIsFirst(d, CRLF_CRLF);
    FindIsFirst(d, LF_LF);
    var p, q := Find(c, CRLF_CRLF), Find(c, LF_LF);
    if p.Some? {
      FindKept(c, d, CRLF_CRLF);
    }
    if q.Some? {
      FindKept(c, d, LF_LF);
      if p.None? && Find(d, CRLF_CRLF).Some? {
        var p' := Find(d, CRLF_CRLF).value;
        SeparatorsApart(d, p', q.value);
        if p' + 4 <= |c| {
          MatchInside(c, d, CRLF_CRLF, p');
        }
      }
    }
  }

  /** In a stream that is not clean, cutting after the LF LF ends the header early. */
  lemma DirtyCut(s: string) returns (k: nat)
    requires !Clean(s)
    ensures k <= |s| && HeaderEnd(s[..k]).Some? && HeaderEnd(s[..k]) != HeaderEnd(s)
  {
    var c := CString(s);
    FindIsFirst(c, CRLF_CRLF);
    FindIsFirst(c, LF_LF);
    var p, q := Find(c, CRLF_CRLF).value, Find(c, LF_LF).value;
    CStringGrows(s, s);
    k := q + 2;
    SeparatorsApart(c, p, q);
    var pre := s[..k];
    CStringGrows(pre, s);
    CStringPrefix(s, k);
    assert CString(pre) == c[..k] && c[..k] <= c;
    FindIsFirst(c[..k], CRLF_CRLF);
    FindIsFirst(c[..k], LF_LF);
    MatchInside(c[..k], c, LF_LF, q);
    if Find(c[..k], CRLF_CRLF).Some? {
      MatchKept(c[..k], c, CRLF_CRLF, Find(c[..k], CRLF_CRLF).value);
    }
  }

  /**
   A stream that is not clean: all of it is cut at its CR LF CR LF, but its first two characters
   are a header's end of their own.
   */
  lemma DirtyStream()
    ensures var s := LF_LF + CRLF_CRLF;
            !Clean(s) && HeaderEnd(s) == Some(Cut(2, 4)) && HeaderEnd(s[..2]) == Some(Cut(0, 2))
  {
    var s := LF_LF + CRLF_CRLF;
    NoZeroIsText(s);
    NoZeroIsText(LF_LF);
    FindIsFirst(s, CRLF_CRLF);
    FindIsFirst(LF_LF, CRLF_CRLF);
    FirstAt(s, 0);
    FirstAt(s, 1);
    assert s[2..] == CRLF_CRLF && MatchAt(s, CRLF_CRLF, 2);
    assert s[..2] == LF_LF;
  }

  lemma FirstAt(s: string, p: nat)
    requires p < |s| && s[p] == '\n'
    ensures !MatchAt(s, CRLF_CRLF, p)
  {
    assert s[p..][0] != CRLF_CRLF[0];
  }

  lemma {:induction false} NoZeroIsText(s: string)
    requires '\0' !in s
    ensures CString(s) == s
  {
    if s != [] {
      NoZeroIsText(s[1..]);
    }
  }

  lemma {:induction false} CStringPrefix(s: string, k: nat)
    requires k <= |CString(s)|
    ensures k <= |s| && CString(s[..k]) == CString(s)[..k]
  {
    if k > 0 {
      CStringPrefix(s[1..], k - 1);
      assert s[..k][1..] == s[1..][..k - 1];
    }
  }

  /**
   The header is cut at the same place however a stream is segmented exactly when no LF LF
   comes before its first CR LF CR LF.
   */
  lemma SameCutIffClean(s: string)
    ensures Clean(s) <==> forall k: nat :: k <= |s| ==> HeaderEnd(s[..k]) in {None, HeaderEnd(s)}
  {
    if Clean(s) {
      forall k: nat | k <= |s| ensures HeaderEnd(s[..k]) in {None, HeaderEnd(s)} {
        CleanCutKept(s[..k], s);
      }
    } else {
      var k := DirtyCut(s);
    }
  }

  // ----- the header's contents -----

  function Lower(c: char): char {
    if 'A' <= c <= 'Z' then c - 'A' + 'a' else c
  }

  /** strncasecmp with the whole key. */
  predicate StartsWithKey(s: string) {
    |s| >= |KEY| && forall i :: 0 <= i < |KEY| ==> Lower(s[i]) == KEY[i]
  }

  predicate IsSpace(c: char) {
    c == ' ' || 9 as char <= c <= 13 as char
  }

  function SkipSpace(s: string): string {
    if s != [] && IsSpace(s[0]) then SkipSpace(s[1..]) else s
  }

  /** strtoul: optional sign, saturation at the largest value, negation modulo its range. */
  function ToUnsigned(s: string): (n: nat)
    ensures n <= ULONG_MAX
  {
    var t := SkipSpace(s);
    var signed := t != [] && (t[0] == '-' || t[0] == '+');
    var v := LeadingNumber(if signed then t[1..] else t, 0);
    if v > ULONG_MAX then ULONG_MAX else if signed && t[0] == '-' then (ULONG_MAX + 1 - v) % (ULONG_MAX + 1) else v
  }

  /** What follows the first line feed. */
  function NextLine(s: string): Option<string> {
    if s == [] then None else if s[0] == '\n' then Some(s[1..]) else NextLine(s[1..])
  }

  lemma {:induction false} NextLineShorter(s: string)
    ensures NextLine(s).Some? ==> |NextLine(s).value| < |s|
  {
    if s != [] && s[0] != '\n' {
      NextLineShorter(s[1..]);
    }
  }

  /** The value of the first line that starts with the key, or 0. */
  function ContentLength(header: string): (n: nat)
    ensures n <= ULONG_MAX
    decreases |header|
  {
    NextLineShorter(header);
    if header == [] then 0
    else if StartsWithKey(header) then ToUnsigned(header[|KEY|..])
    else
      match NextLine(header)
      case None => 0
      case Some(rest) => ContentLength(rest)
  }

  /** get_content_length. */
  method GetContentLength(header: string) returns (n: nat)
    ensures n == ContentLength(header)
  {
    var line := header;
    while line != []
      invariant ContentLength(header) == ContentLength(line)
      decreases |line|
    {
      if StartsWithKey(line) {
        return ToUnsigned(line[|KEY|..]);
      }
      NextLineShorter(line);
      var next := NextLine(line);
      if next.None? {
        return 0;
      }
      line := next.value;
    }
    return 0;
  }

  /** The header of `lines`, each ended by CR LF, but for the last. */
  function Lines(lines: seq<string>, last: string): string {
    if lines == [] then last else lines[0] + ['\r', '\n'] + Lines(lines[1..], last)
  }

  predicate IsOtherLine(l: string) {
    l != [] && (forall i :: 0 <= i < |l| ==> l[i] != '\n' && l[i] != '\r') && !StartsWithKey(l + ['\r', '\n'])
  }

  lemma {:induction false} NextLineOf(l: string, rest: string)
    requires forall i :: 0 <= i < |l| ==> l[i] != '\n'
    ensures NextLine(l + ['\n'] + rest) == Some(rest)
  {
    var s := l + ['\n'] + rest;
    if l == [] {
      assert s[1..] == rest;
    } else {
      assert s[1..] == l[1..] + ['\n'] + rest;
      NextLineOf(l[1..], rest);
    }
  }

  /** The key has no line break, so it cannot match across one. */
  lemma KeyStopsAtBreak(l: string, rest: string)
    requires !StartsWithKey(l + ['\r', '\n'])
    ensures !StartsWithKey(l + ['\r', '\n'] + rest)
  {
    var line := l + ['\r', '\n'];
    var s := line + rest;
    KeyLetters();
    if |line| < |KEY| {
      assert s[|l|] == '\r';
    } else {
      assert forall i :: 0 <= i < |KEY| ==> line[i] == s[i];
    }
  }

  lemma KeyLetters()
    ensures forall i :: 0 <= i < |KEY| ==> KEY[i] != '\r' && KEY[i] != Lower('\r')
  {
  }

  /** A Content-Length line among other lines announces the number it spells. */
  lemma {:induction false} ContentLengthRead(lines: seq<string>, n: nat, rest: string)
    requires forall i :: 0 <= i < |lines| ==> IsOtherLine(lines[i])
    requires n <= ULONG_MAX && (rest == [] || !IsDigit(rest[0]))
    ensures ContentLength(Lines(lines, "Content-Length: " + Decimal(n) + rest)) == n
  {
    var last := "Content-Length: " + Decimal(n) + rest;
    var header := Lines(lines, last);
    if lines == [] {
      KeySpelled(Decimal(n) + rest);
      assert last == "Content-Length: " + (Decimal(n) + rest);
      SpelledNumber(n, rest);
    } else {
      var tail := Lines(lines[1..], last);
      KeyStopsAtBreak(lines[0], tail);
      assert header == (lines[0] + ['\r']) + ['\n'] + tail;
      NextLineOf(lines[0] + ['\r'], tail);
      ContentLengthRead(lines[1..], n, rest);
    }
  }

  lemma KeySpelled(value: string)
    ensures StartsWithKey("Content-Length: " + value)
    ensures ("Content-Length: " + value)[|KEY|..] == [' '] + value
  {
    var s := "Content-Length: " + value;
    assert s[..16] == "Content-Length: ";
    assert forall i :: 0 <= i < 16 ==> s[i] == "Content-Length: "[i];
  }

  lemma SpelledNumber(n: nat, rest: string)
    requires n <= ULONG_MAX && (rest == [] || !IsDigit(rest[0]))
    ensures ToUnsigned([' '] + (Decimal(n) + rest)) == n
  {
    var t := Decimal(n) + rest;
    assert ([' '] + t)[1..] == t;
    assert IsDigit(t[0]);
    assert SkipSpace([' '] + t) == t;
    DecimalRoundTrip(n, rest);
  }

  // ----- requests -----

  /** A GET request without a question mark has no parameters; with one it has at least an empty one. */
  datatype Request = Get(path: string, params: seq<string>) | Post(path: string, body: string) | Unknown

  /** The text up to the first space, carriage return or line feed. */
  function Target(s: string): string {
    if s == [] || s[0] == ' ' || s[0] == '\r' || s[0] == '\n' then [] else [s[0]] + Target(s[1..])
  }

  /** The text up to the first occurrence of a character. */
  function Upto(s: string, c: char): (t: string)
    ensures t <= s && c !in t && (|t| < |s| ==> s[|t|] == c)
  {
    if s == [] || s[0] == c then [] else [s[0]] + Upto(s[1..], c)
  }

  /** The parameters between ampersands. */
  function Pieces(s: string): seq<string>
    decreases |s|
  {
    var p := Upto(s, '&');
    if |p| == |s| then [p] else [p] + Pieces(s[|p| + 1..])
  }

  function Ampersands(s: string): nat {
    if s == [] then 0 else Ampersands(s[..|s| - 1]) + if s[|s| - 1] == '&' then 1 else 0
  }

  function JoinPieces(ps: seq<string>): string
    requires ps != []
  {
    if |ps| == 1 then ps[0] else ps[0] + ['&'] + JoinPieces(ps[1..])
  }

  lemma {:induction false} UptoIs(t: string, rest: string, c: char)
    requires c !in t && (rest == [] || rest[0] == c)
    ensures Upto(t + rest, c) == t
    decreases |t|
  {
    if t == [] {
      assert t + rest == rest;
    } else {
      assert (t + rest)[1..] == t[1..] + rest;
      UptoIs(t[1..], rest, c);
    }
  }

  /** Any list of parameters without ampersands, joined by ampersands, is split into the same list. */
  lemma {:induction false} PiecesOfJoin(ps: seq<string>)
    requires ps != [] && forall i :: 0 <= i < |ps| ==> '&' !in ps[i]
    ensures Pieces(JoinPieces(ps)) == ps
    decreases |ps|
  {
    if |ps| == 1 {
      UptoIs(ps[0], [], '&');
      assert ps[0] + [] == ps[0];
    } else {
      var rest := ['&'] + JoinPieces(ps[1..]);
      UptoIs(ps[0], rest, '&');
      assert JoinPieces(ps) == ps[0] + rest;
      assert (ps[0] + rest)[|ps[0]| + 1..] == JoinPieces(ps[1..]);
      PiecesOfJoin(ps[1..]);
    }
  }

  lemma {:induction false} AmpersandsConcat(a: string, b: string)
    ensures Ampersands(a + b) == Ampersands(a) + Ampersands(b)
  {
    if b == [] {
      assert a + b == a;
    } else {
      assert (a + b)[..|a + b| - 1] == a + b[..|b| - 1];
      AmpersandsConcat(a, b[..|b| - 1]);
    }
  }

  lemma {:induction false} NoAmpersands(s: string)
    requires '&' !in s
    ensures Ampersands(s) == 0
  {
    if s != [] {
      NoAmpersands(s[..|s| - 1]);
      assert s[|s| - 1] in s;
    }
  }

  /** There is one parameter more than there are ampersands, so the allocated list is filled exactly. */
  lemma {:induction false} PiecesCount(s: string)
    ensures |Pieces(s)| == Ampersands(s) + 1
    decreases |s|
  {
    var p := Upto(s, '&');
    NoAmpersands(p);
    if |p| < |s| {
      PiecesCount(s[|p| + 1..]);
      assert s == p + (['&'] + s[|p| + 1..]);
      AmpersandsConcat(p, ['&'] + s[|p| + 1..]);
      AmpersandsConcat(['&'], s[|p| + 1..]);
    } else {
      assert s == p;
    }
  }

  function Params(target: string): seq<string> {
    var path := Upto(target, '?');
    if |path| == |target| then [] else Pieces(target[|path| + 1..])
  }

  /** What the handlers see of a header and a body. */
  function Parse(header: string, body: string): Request {
    if "GET " <= header then Get(Upto(Target(header[4..]), '?'), Params(Target(header[4..])))
    else if "POST " <= header then Post(Target(header[5..]), body)
    else Unknown
  }

  /**
   What becomes of a connection that has received exactly these bytes, in whatever pieces. A body
   that is too large is refused, and so is a complete request that is neither GET nor POST.
   */
  datatype Verdict = Pending | Refused | Handed(request: Request)

  function Complete(s: string, cut: Cut): Verdict
    requires cut.at + cut.sep <= |s|
  {
    var offset := cut.at + cut.sep;
    var n := ContentLength(s[..cut.at]);
    if offset + n > REQUEST_MAX_SIZE then Refused
    else if |s| < offset + n then Pending
    else
      var r := Parse(s[..cut.at], s[offset..offset + n]);
      if r.Unknown? then Refused else Handed(r)
  }

  function Judge(s: string): Verdict {
    HeaderEndInside(s);
    match HeaderEnd(s)
    case None => Pending
    case Some(cut) => Complete(s, cut)
  }

  // ----- the connection -----

  /** A connection while its request arrives. */
  datatype Conn = Reading(got: string) | Body(got: string, cut: Cut) | Done | Closed

  datatype Event = Wait | Close | Hand(request: Request) | Ignore

  predicate ValidConn(c: Conn) {
    c.Body? ==> c.cut.at + c.cut.sep <= |c.got|
  }

  function Settle(s: string, cut: Cut): (Conn, Event)
    requires cut.at + cut.sep <= |s|
  {
    match Complete(s, cut)
    case Pending => (Body(s, cut), Wait)
    case Refused => (Closed, Close)
    case Handed(r) => (Done, Hand(r))
  }

  /** One received segment. */
  function Receive(c: Conn, seg: string): (r: (Conn, Event))
    requires ValidConn(c)
    ensures ValidConn(r.0)
  {
    if c.Done? || c.Closed? then (c, Ignore)
    else if |seg| > REQUEST_MAX_SIZE - |c.got| then (Closed, Close)
    else
      var s := c.got + seg;
      if c.Body? then Settle(s, c.cut)
      else
        HeaderEndInside(s);
        match HeaderEnd(s)
        case None => (Reading(s), Wait)
        case Some(cut) => Settle(s, cut)
  }

  function Concat(segs: seq<string>): string {
    if segs == [] then [] else Concat(segs[..|segs| - 1]) + segs[|segs| - 1]
  }

  function Run(segs: seq<string>): (r: (Conn, seq<Event>))
    ensures ValidConn(r.0) && |r.1| == |segs|
  {
    if segs == [] then (Reading([]), [])
    else
      var (c, es) := Run(segs[..|segs| - 1]);
      var (c', e) := Receive(c, segs[|segs| - 1]);
      (c', es + [e])
  }

  /** The connection is in the state that its bytes alone determine. */
  ghost predicate Agrees(c: Conn, s: string) {
    match Judge(s)
    case Pending => (match HeaderEnd(s) case None => c == Reading(s) case Some(cut) => c == Body(s, cut))
    case Refused => c == Closed
    case Handed(_) => c == Done
  }

  /** Once its bytes are judged, more bytes of a clean stream do not change the verdict. */
  lemma JudgedForGood(s: string, t: string)
    requires s <= t && Clean(t) && Judge(s) != Pending
    ensures Judge(t) == Judge(s)
  {
    CleanCutKept(s, t);
    HeaderEndInside(s);
    HeaderEndInside(t);
    var cut := HeaderEnd(s).value;
    assert s[..cut.at] == t[..cut.at];
    var offset, n := cut.at + cut.sep, ContentLength(s[..cut.at]);
    if offset + n <= |s| {
      assert s[offset..offset + n] == t[offset..offset + n];
    }
  }

  /** The event of a segment that extends the bytes `s` to `t`. */
  function Expected(s: string, t: string): Event {
    if Judge(s) != Pending then Ignore
    else
      match Judge(t)
      case Pending => Wait
      case Refused => Close
      case Handed(r) => Hand(r)
  }

  lemma ReceiveAgrees(c: Conn, s: string, seg: string)
    requires ValidConn(c) && Agrees(c, s) && Clean(s + seg) && |s + seg| <= REQUEST_MAX_SIZE
    ensures Agrees(Receive(c, seg).0, s + seg)
    ensures Receive(c, seg).1 == Expected(s, s + seg)
  {
    if Judge(s) != Pending {
      JudgedForGood(s, s + seg);
    } else {
      CleanCutKept(s, s + seg);
    }
  }

  lemma CleanPrefix(s: string, t: string)
    requires s <= t && Clean(t)
    ensures Clean(s)
  {
    CleanCutKept(s, t);
  }

  lemma {:induction false} RunAgrees(segs: seq<string>, j: nat)
    requires Clean(Concat(segs)) && |Concat(segs)| <= REQUEST_MAX_SIZE
    ensures Agrees(Run(segs).0, Concat(segs))
    ensures j < |segs| ==> Run(segs).1[j] == Expected(Concat(segs[..j]), Concat(segs[..j + 1]))
  {
    hide Agrees, Expected, Receive, Clean, Run, Concat;
    if segs == [] {
      StartAgrees();
    } else {
      var n := |segs| - 1;
      RunExtends(segs);
      CleanPrefix(Concat(segs[..n]), Concat(segs));
      RunAgrees(segs[..n], j);
      ReceiveAgrees(Run(segs[..n]).0, Concat(segs[..n]), segs[n]);
      assert segs[..n + 1] == segs;
      if j < n {
        assert segs[..n][..j] == segs[..j] && segs[..n][..j + 1] == segs[..j + 1];
        assert Run(segs).1[j] == Run(segs).1[..n][j];
      }
    }
  }

  lemma StartAgrees()
    ensures Agrees(Run([]).0, Concat([]))
  {
    assert CString([]) == [];
  }

  lemma RunExtends(segs: seq<string>)
    requires segs != []
    ensures var n := |segs| - 1;
            && Concat(segs) == Concat(segs[..n]) + segs[n]
            && Run(segs).0 == Receive(Run(segs[..n]).0, segs[n]).0
            && Run(segs).1[n] == Receive(Run(segs[..n]).0, segs[n]).1
            && Run(segs).1[..n] == Run(segs[..n]).1
  {
  }

  /**
   Segmentation independence: a clean stream that fits the buffer ends in the same state and
   is handed on with the same path and body however it is segmented, by the segment that
   completes the announced body.
   */
  lemma SegmentationIndependent(segs: seq<string>, j: nat)
    requires Clean(Concat(segs)) && |Concat(segs)| <= REQUEST_MAX_SIZE && j < |segs|
    ensures Agrees(Run(segs).0, Concat(segs))
    ensures Run(segs).1[j].Hand? <==> Judge(Concat(segs[..j])) == Pending && Judge(Concat(segs[..j + 1])).Handed?
    ensures Run(segs).1[j].Hand? ==> Judge(Concat(segs)) == Handed(Run(segs).1[j].request)
  {
    RunAgrees(segs, j);
    ConcatGrows(segs, j + 1, |segs|);
    assert segs[..|segs|] == segs;
    if Run(segs).1[j].Hand? {
      JudgedForGood(Concat(segs[..j + 1]), Concat(segs));
    }
  }

  /** The request is handed on at most once. */
  lemma HandedOnce(segs: seq<string>, i: nat, j: nat)
    requires Clean(Concat(segs)) && |Concat(segs)| <= REQUEST_MAX_SIZE
    requires i < j < |segs| && Run(segs).1[i].Hand?
    ensures !Run(segs).1[j].Hand?
  {
    var s, t, u := Concat(segs[..i + 1]), Concat(segs[..j]), Concat(segs);
    ConcatGrows(segs, i + 1, j);
    ConcatGrows(segs, j, |segs|);
    assert segs[..|segs|] == segs;
    CleanPrefix(t, u);
    RunAgrees(segs, i);
    RunAgrees(segs, j);
    JudgedForGood(s, t);
  }

  /** A stream that holds a complete request hands it on with one of its segments. */
  lemma HandedSomewhere(segs: seq<string>) returns (j: nat)
    requires Clean(Concat(segs)) && |Concat(segs)| <= REQUEST_MAX_SIZE && Judge(Concat(segs)).Handed?
    ensures j < |segs| && Run(segs).1[j] == Hand(Judge(Concat(segs)).request)
  {
    assert segs[..|segs|] == segs;
    j := FirstJudged(segs, |segs|);
    ConcatGrows(segs, j + 1, |segs|);
    JudgedForGood(Concat(segs[..j + 1]), Concat(segs));
    SegmentationIndependent(segs, j);
  }

  lemma NothingJudged(segs: seq<string>)
    ensures Judge(Concat(segs[..0])) == Pending
  {
    assert segs[..0] == [] && CString([]) == [];
  }

  lemma {:induction false} FirstJudged(segs: seq<string>, n: nat) returns (j: nat)
    requires n <= |segs| && Judge(Concat(segs[..n])) != Pending
    ensures j < n && Judge(Concat(segs[..j])) == Pending && Judge(Concat(segs[..j + 1])) != Pending
    decreases n
  {
    NothingJudged(segs);
    j := n - 1;
    if Judge(Concat(segs[..n - 1])) != Pending {
      j := FirstJudged(segs, n - 1);
    }
  }

  lemma {:induction false} ConcatGrows(segs: seq<string>, i: nat, j: nat)
    requires i <= j <= |segs|
    ensures Concat(segs[..i]) <= Concat(segs[..j])
    decreases j
  {
    if i < j {
      ConcatGrows(segs, i, j - 1);
      assert segs[..j][..j - 1] == segs[..j - 1];
    }
  }

  // ----- the code -----

  class Connection {
    const data: array<char>
    var dataLen: nat
    var bodyOffset: nat
    var contentLen: nat
    var headerComplete: bool
    var processed: bool
    var closed: bool
    /** Every byte accepted so far, and where the header was cut. */
    ghost var got: string
    ghost var cut: Cut

    ghost predicate Valid()
      reads this, data
    {
      && data.Length == REQUEST_MAX_SIZE + 1 && dataLen <= REQUEST_MAX_SIZE
      && (!closed && !processed ==> |got| == dataLen)
      && (!closed && !processed && !headerComplete ==> data[..dataLen] == got)
      && (!closed && !processed && headerComplete ==>
            && cut.at + cut.sep == bodyOffset <= dataLen && cut.sep > 0
            && data[..cut.at] == got[..cut.at] && data[bodyOffset..dataLen] == got[bodyOffset..]
            && data[cut.at] == '\0' && '\0' !in got[..cut.at]
            && contentLen == ContentLength(got[..cut.at]) && bodyOffset + contentLen <= REQUEST_MAX_SIZE)
    }

    ghost function View(): Conn
      reads this
    {
      if closed then Closed else if processed then Done else if headerComplete then Body(got, cut) else Reading(got)
    }

    constructor ()
      ensures Valid() && View() == Reading([]) && fresh(data)
    {
      data := new char[REQUEST_MAX_SIZE + 1](_ => '\0');
      dataLen, bodyOffset, contentLen := 0, 0, 0;
      headerComplete, processed, closed := false, false, false;
      got := [];
      cut := Cut(0, 0);
    }

    /** get_request_path, on the header text after the method name. */
    method RequestPath(text: string) returns (path: string)
      ensures path == Target(text)
    {
      path := [];
      var rest := text;
      while rest != [] && rest[0] != ' ' && rest[0] != '\r' && rest[0] != '\n'
        invariant Target(text) == path + Target(rest)
        decreases |rest|
      {
        path := path + [rest[0]];
        rest := rest[1..];
      }
    }

    /** The text of a string before a character: strchr, or a string's end. */
    method Before(s: string, c: char) returns (t: string)
      ensures t == Upto(s, c)
    {
      var n := 0;
      while n < |s| && s[n] != c
        invariant n <= |s| && c !in s[..n]
      {
        assert s[..n + 1] == s[..n] + [s[n]];
        n := n + 1;
      }
      t := s[..n];
      UptoIs(t, s[n..], c);
      assert t + s[n..] == s;
    }

    /** The part of handle_request that separates the parameters from the path. */
    method SplitTarget(target: string) returns (r: Request)
      ensures r == Get(Upto(target, '?'), Params(target))
    {
      var path := Before(target, '?');
      var params: seq<string> := [];
      if |path| < |target| {
        params := ParseGetParams(target[|path| + 1..]);
      }
      r := Get(path, params);
    }

    /** parse_get_params: the ampersands are counted first, and then as many parameters are copied. */
    method ParseGetParams(params: string) returns (list: seq<string>)
      ensures list == Pieces(params)
    {
      var cnt := 1;
      for i := 0 to |params|
        invariant cnt == 1 + Ampersands(params[..i])
      {
        assert params[..i + 1][..i] == params[..i];
        if params[i] == '&' {
          cnt := cnt + 1;
        }
      }
      assert params[..|params|] == params;
      PiecesCount(params);
      list := [];
      var rest := params;
      for i := 0 to cnt
        invariant i < cnt ==> Pieces(params) == list + Pieces(rest) && |Pieces(rest)| == cnt - i
        invariant i == cnt ==> list == Pieces(params)
      {
        var p := Before(rest, '&');
        if |p| < |rest| {
          assert list + ([p] + Pieces(rest[|p| + 1..])) == list + [p] + Pieces(rest[|p| + 1..]);
          rest := rest[|p| + 1..];
        }
        list := list + [p];
      }
    }

    /** The choice of handle_request between the methods. */
    method HandleRequest() returns (r: Request)
      requires Valid() && headerComplete && !closed && !processed && bodyOffset + contentLen <= dataLen
      ensures r == Parse(got[..cut.at], got[bodyOffset..bodyOffset + contentLen])
    {
      var header := CString(data[..]);
      HeaderText();
      if "GET " <= header {
        var path := RequestPath(header[4..]);
        r := SplitTarget(path);
      } else if "POST " <= header {
        var path := RequestPath(header[5..]);
        r := Post(path, data[bodyOffset..bodyOffset + contentLen]);
        assert data[bodyOffset..bodyOffset + contentLen] == data[bodyOffset..dataLen][..contentLen];
        assert got[bodyOffset..bodyOffset + contentLen] == got[bodyOffset..][..contentLen];
      } else {
        r := Unknown;
      }
    }

    lemma HeaderText()
      requires Valid() && headerComplete && !closed && !processed
      ensures CString(data[..]) == got[..cut.at]
    {
      var a, b := data[..cut.at], data[cut.at + 1..];
      assert data[..] == a + (['\0'] + b);
      StopsAtZero(a, b);
      assert CString(data[..]) == a;
      assert a == got[..cut.at];
    }

    /** The part of tcp_server_recv that takes in a segment, up to the hand-over of the request. */
    method RecvSegment(seg: string) returns (e: Event)
      requires Valid() && !closed
      modifies this, data
      ensures Valid() && (View(), e) == Receive(old(View()), seg)
    {
      if processed {
        return Ignore;
      }
      if |seg| > REQUEST_MAX_SIZE - dataLen {
        closed := true;
        return Close;
      }
      Store(seg);
      if !headerComplete {
        e := EndHeader();
        if closed || !headerComplete {
          return;
        }
      }
      e := EndBody();
    }

    /**
     The check for the rest of the body, and the request's processing; a request of another
     method ends the connection.
     */
    method EndBody() returns (e: Event)
      requires Valid() && !closed && !processed && headerComplete
      modifies this`processed, this`closed, data
      ensures Valid() && (View(), e) == Settle(got, cut)
    {
      assert data[..cut.at] == got[..cut.at];
      if dataLen - bodyOffset < contentLen {
        return Wait;
      }
      var r := HandleRequest();
      data[bodyOffset + contentLen] := '\0';
      processed := true;
      closed := r.Unknown?;
      e := if closed then Close else Hand(r);
    }

    method Store(seg: string)
      requires Valid() && !closed && !processed && dataLen + |seg| <= REQUEST_MAX_SIZE
      modifies this`dataLen, this`got, data
      ensures Valid() && got == old(got) + seg
    {
      ghost var before := data[..dataLen];
      CopyIn(seg);
      dataLen := dataLen + |seg|;
      got := got + seg;
      assert data[..dataLen] == before + seg;
      if headerComplete {
        KeptInPlace(before, seg, data[..dataLen], cut.at, bodyOffset);
        KeptInPlace(old(got), seg, got, cut.at, bodyOffset);
      }
    }

    lemma KeptInPlace(before: string, seg: string, all: string, at: nat, offset: nat)
      requires at < offset <= |before| && all == before + seg
      ensures all[..at] == before[..at] && all[at] == before[at] && all[offset..] == before[offset..] + seg
    {
    }

    /** A segment copied behind the bytes already there, with a terminator. */
    method CopyIn(seg: string)
      requires dataLen + |seg| < data.Length
      modifies data
      ensures data[..dataLen] == old(data[..dataLen]) && data[dataLen..dataLen + |seg|] == seg
    {
      forall i | 0 <= i < |seg| {
        data[dataLen + i] := seg[i];
      }
      data[dataLen + |seg|] := '\0';
    }

    /** The search for the header's end among the bytes so far. */
    method EndHeader() returns (e: Event)
      requires Valid() && !closed && !processed && !headerComplete
      modifies this`bodyOffset, this`contentLen, this`headerComplete, this`closed, this`cut, data
      ensures Valid() && e in {Wait, Close} && closed == (e == Close)
      ensures HeaderEnd(got) == None ==> e == Wait && !headerComplete
      ensures HeaderEnd(got).Some? ==>
                var c := HeaderEnd(got).value;
                c.at <= |got| &&
                if c.at + c.sep + ContentLength(got[..c.at]) > REQUEST_MAX_SIZE then e == Close
                else e == Wait && headerComplete && cut == c
    {
      var end := FindSeparator();
      if end.None? {
        return Wait;
      }
      cut := end.value;
      HeaderEndInside(got);
      HeaderHasNoZero(got, cut.at);
      data[end.value.at] := '\0';
      bodyOffset := end.value.at + end.value.sep;
      assert data[..end.value.at] == got[..end.value.at];
      contentLen := GetContentLength(data[..end.value.at]);
      if contentLen > REQUEST_MAX_SIZE - bodyOffset {
        closed := true;
        return Close;
      }
      headerComplete := true;
      e := Wait;
    }

    /** The two searches for an empty line. */
    method FindSeparator() returns (end: Option<Cut>)
      requires Valid() && !closed && !processed && !headerComplete
      ensures end == HeaderEnd(got) && (end.Some? ==> end.value.at <= |CString(got)|)
    {
      var text := CString(data[..dataLen]);
      FindIsFirst(text, CRLF_CRLF);
      FindIsFirst(text, LF_LF);
      var first := Find(text, CRLF_CRLF);
      if first.Some? {
        return Some(Cut(first.value, 4));
      }
      var second := Find(text, LF_LF);
      end := if second.Some? then Some(Cut(second.value, 2)) else None;
    }
  }

  lemma {:induction false} StopsAtZero(a: string, b: string)
    requires '\0' !in a
    ensures CString(a + (['\0'] + b)) == a
  {
    if a != [] {
      assert (a + (['\0'] + b))[1..] == a[1..] + (['\0'] + b);
      StopsAtZero(a[1..], b);
    }
  }

  lemma {:induction false} CStringNoZero(s: string)
    ensures '\0' !in CString(s)
  {
    if s != [] && s[0] != '\0' {
      CStringNoZero(s[1..]);
    }
  }

  lemma HeaderHasNoZero(s: string, p: nat)
    requires p <= |CString(s)|
    ensures p <= |s| && '\0' !in s[..p]
  {
    CStringGrows(s, s);
    CStringNoZero(s);
    assert s[..p] == CString(s)[..p];
  }
}
