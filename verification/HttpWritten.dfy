/**
 Requests as clients write them: what becomes of a request line, header lines and a body,
 stated by their texts.
 */
module HttpWritten {
  import opened Common
  import opened DecimalText
  import opened HttpRequest

  /** How a client ends its lines. */
  predicate IsBreak(brk: string) {
    brk == ['\r', '\n'] || brk == ['\n']
  }

  /** A line of a header: neither empty nor broken. */
  predicate IsLine(l: string) {
    l != [] && '\r' !in l && '\n' !in l && '\0' !in l
  }

  predicate AllLines(lines: seq<string>) {
    forall i :: 0 <= i < |lines| ==> IsLine(lines[i])
  }

  /** Lines, each with its line break, and the empty line. */
  function Header(lines: seq<string>, brk: string): string {
    if lines == [] then brk else lines[0] + (brk + Header(lines[1..], brk))
  }

  /** After a header with bare line feeds no CR may come, or CR LF CR LF could end it elsewhere. */
  predicate MayFollow(more: string, brk: string) {
    brk == ['\n'] ==> '\r' !in more
  }

  /** "Content-Length:" in any mixture of cases. */
  predicate NamesLength(l: string) {
    |l| >= 15 && forall i :: 0 <= i < 15 ==> l[i] == "CONTENT-LENGTH:"[i] || l[i] == "content-length:"[i]
  }

  predicate NoneNamesLength(lines: seq<string>) {
    forall i :: 0 <= i < |lines| ==> !NamesLength(lines[i])
  }

  // ----- the end of a written header -----

  lemma {:induction false} CStringConcat(a: string, b: string)
    requires '\0' !in a
    ensures CString(a + b) == a + CString(b)
  {
    if a == [] {
      assert a + b == b;
    } else {
      assert (a + b)[1..] == a[1..] + b;
      CStringConcat(a[1..], b);
    }
  }

  lemma {:induction false} HeaderNoZero(lines: seq<string>, brk: string)
    requires AllLines(lines) && IsBreak(brk)
    ensures '\0' !in Header(lines, brk)
    ensures brk == ['\n'] ==> '\r' !in Header(lines, brk)
  {
    if lines != [] {
      HeaderNoZero(lines[1..], brk);
    }
  }

  lemma {:induction false} FindSkip(a: string, b: string, pat: string)
    requires pat != [] && pat[0] !in a
    ensures Find(a + b, pat) == match Find(b, pat) case None => None case Some(p) => Some(|a| + p)
  {
    if a == [] {
      assert a + b == b;
    } else {
      assert (a + b)[0] == a[0] && (a + b)[1..] == a[1..] + b;
      FindSkip(a[1..], b, pat);
    }
  }

  lemma {:induction false} FindAbsent(s: string, pat: string)
    requires pat != [] && pat[0] !in s
    ensures Find(s, pat) == None
  {
    if s != [] {
      FindAbsent(s[1..], pat);
    }
  }

  function Separator(brk: string): string {
    brk + brk
  }

  /** A line break before something else than a line break is no separator. */
  lemma BreakSkip(b: string, brk: string)
    requires b != [] && b[0] != '\r' && b[0] != '\n' && IsBreak(brk)
    ensures Find(brk + b, Separator(brk)) ==
            match Find(b, Separator(brk)) case None => None case Some(p) => Some(|brk| + p)
  {
    var s := brk + b;
    assert s[|brk|] == b[0] != Separator(brk)[|brk|];
    assert !(Separator(brk) <= s);
    if brk == ['\r', '\n'] {
      assert s[1..] == ['\n'] + b;
      FindSkip(['\n'], b, Separator(brk));
    } else {
      assert s[1..] == b;
    }
  }

  lemma HeaderStarts(lines: seq<string>, brk: string, more: string)
    requires lines != [] && AllLines(lines)
    ensures var t := Header(lines, brk) + more; t[0] == lines[0][0] && t[0] != '\r' && t[0] != '\n'
  {
  }

  lemma {:induction false} HeaderFound(lines: seq<string>, brk: string, more: string)
    requires lines != [] && AllLines(lines) && IsBreak(brk)
    ensures |Header(lines, brk)| >= 2 * |brk|
    ensures Find(Header(lines, brk) + more, Separator(brk)) == Some(|Header(lines, brk)| - 2 * |brk|)
  {
    hide IsLine, Find;
    var l, rest := lines[0], Header(lines[1..], brk) + more;
    assert IsLine(l);
    LineHasNoBreak(l);
    assert Header(lines, brk) + more == l + (brk + rest);
    FindSkip(l, brk + rest, Separator(brk));
    if |lines| == 1 {
      assert brk + rest == Separator(brk) + more;
      FoundAtOnce(Separator(brk), more);
    } else {
      HeaderFound(lines[1..], brk, more);
      HeaderStarts(lines[1..], brk, more);
      BreakSkip(rest, brk);
    }
  }

  lemma FoundAtOnce(pat: string, more: string)
    ensures Find(pat + more, pat) == Some(0)
  {
  }

  lemma LineHasNoBreak(l: string)
    requires IsLine(l)
    ensures '\r' !in l && '\n' !in l && '\0' !in l
  {
  }

  /** No two line feeds stand together in a header whose lines end with CR LF. */
  lemma {:induction false} NoDoubleFeed(lines: seq<string>, q: nat)
    requires AllLines(lines) && q + 1 < |Header(lines, ['\r', '\n'])|
    ensures Header(lines, ['\r', '\n'])[q] != '\n' || Header(lines, ['\r', '\n'])[q + 1] != '\n'
  {
    var brk := ['\r', '\n'];
    if lines != [] {
      var l, rest := lines[0], Header(lines[1..], brk);
      if q >= |l| + 2 {
        NoDoubleFeed(lines[1..], q - |l| - 2);
      } else if q == |l| + 1 {
        assert Header(lines, brk)[q + 1] == rest[0];
        if |lines| > 1 {
          HeaderStarts(lines[1..], brk, []);
          assert rest + [] == rest;
        }
      } else if q < |l| {
        assert Header(lines, brk)[q] == l[q] && l[q] in l;
      }
    }
  }

  lemma FeedsBehind(lines: seq<string>, more: string, q: nat)
    requires AllLines(lines) && MatchAt(Header(lines, ['\r', '\n']) + more, LF_LF, q)
    ensures q + 1 >= |Header(lines, ['\r', '\n'])|
  {
    var h := Header(lines, ['\r', '\n']);
    var c := h + more;
    assert c[q] == c[q..][0] == '\n' && c[q + 1] == c[q..][1] == '\n';
    if q + 1 < |h| {
      NoDoubleFeed(lines, q);
    }
  }

  /** A written header ends where its empty line is, whatever may follow it. */
  lemma HeaderEnds(lines: seq<string>, brk: string, more: string)
    requires lines != [] && AllLines(lines) && IsBreak(brk) && MayFollow(more, brk)
    ensures |Header(lines, brk)| >= 2 * |brk|
    ensures var s := Header(lines, brk) + more;
            HeaderEnd(s) == Some(Cut(|Header(lines, brk)| - 2 * |brk|, 2 * |brk|)) && Clean(s)
  {
    hide Find, Header, MatchAt;
    HeaderNoZero(lines, brk);
    CStringConcat(Header(lines, brk), more);
    HeaderFound(lines, brk, CString(more));
    var c := CString(Header(lines, brk) + more);
    FindIsFirst(c, LF_LF);
    if brk == ['\r', '\n'] {
      assert Separator(brk) == CRLF_CRLF;
      if Find(c, LF_LF).Some? {
        FeedsBehind(lines, CString(more), Find(c, LF_LF).value);
      }
    } else {
      assert Separator(brk) == LF_LF;
      CStringGrows(more, more);
      assert '\r' !in CString(more) by {
        PrefixHasNone(CString(more), more);
      }
      FindAbsent(c, CRLF_CRLF);
    }
  }

  lemma PrefixHasNone(a: string, b: string)
    requires a <= b && '\r' !in b
    ensures '\r' !in a
  {
    assert forall i :: 0 <= i < |a| ==> a[i] == b[i] && b[i] in b;
  }

  /** Before its empty line is complete, a header has no end. */
  lemma NotYetEnded(lines: seq<string>, brk: string, k: nat)
    requires lines != [] && AllLines(lines) && IsBreak(brk) && k < |Header(lines, brk)|
    ensures HeaderEnd(Header(lines, brk)[..k]) == None
  {
    hide Find, CString, Header;
    var h := Header(lines, brk);
    HeaderEnds(lines, brk, []);
    assert h + [] == h;
    HeaderEndInside(h[..k]);
    CleanCutKept(h[..k], h);
  }

  // ----- the announced length -----

  /** The lines of a header without the separator behind them. */
  function Joined(lines: seq<string>, brk: string): string
    requires lines != []
  {
    if |lines| == 1 then lines[0] else lines[0] + (brk + Joined(lines[1..], brk))
  }

  lemma {:induction false} HeaderIsJoined(lines: seq<string>, brk: string)
    requires lines != []
    ensures Header(lines, brk) == Joined(lines, brk) + Separator(brk)
  {
    if |lines| == 1 {
      assert Header([], brk) == brk;
    } else {
      HeaderIsJoined(lines[1..], brk);
    }
  }

  lemma KeyOf(l: string, rest: string)
    requires rest == [] || rest[0] == '\r' || rest[0] == '\n'
    ensures StartsWithKey(l + rest) <==> NamesLength(l)
  {
    var s := l + rest;
    KeyHasNoBreak();
    KeyCases(0);
    if |l| >= 15 {
      forall i | 0 <= i < 15
        ensures Lower(s[i]) == KEY[i] <==> l[i] == "CONTENT-LENGTH:"[i] || l[i] == "content-length:"[i]
      {
        KeyCases(i);
        assert s[i] == l[i];
      }
    } else if rest != [] {
      assert s[|l|] == rest[0];
    }
  }

  lemma KeyHasNoBreak()
    ensures forall i :: 0 <= i < |KEY| ==> KEY[i] != Lower('\r') && KEY[i] != Lower('\n')
  {
  }

  lemma KeyCases(i: nat)
    requires i < 15
    ensures |KEY| == 15 && KEY[i] == "content-length:"[i]
    ensures forall c: char :: Lower(c) == KEY[i] <==> c == "CONTENT-LENGTH:"[i] || c == "content-length:"[i]
  {
  }

  /** What a text of lines announces beyond its first line. */
  lemma LaterLines(l: string, brk: string, rest: string)
    requires IsLine(l) && !NamesLength(l) && IsBreak(brk)
    ensures ContentLength(l + (brk + rest)) == ContentLength(rest)
  {
    hide ToUnsigned;
    KeyOf(l, brk + rest);
    var head := l + brk[..|brk| - 1];
    assert l + (brk + rest) == head + ['\n'] + rest;
    NextLineOf(head, rest);
  }

  lemma {:induction false} NoNextLine(l: string)
    requires '\n' !in l
    ensures NextLine(l) == None
  {
    if l != [] {
      assert l[0] in l;
      NoNextLine(l[1..]);
    }
  }

  /** Without a length line a header announces nothing. */
  lemma {:induction false} NothingAnnounced(lines: seq<string>, brk: string)
    requires lines != [] && AllLines(lines) && NoneNamesLength(lines) && IsBreak(brk)
    ensures ContentLength(Joined(lines, brk)) == 0
  {
    var l := lines[0];
    assert IsLine(l) && !NamesLength(l);
    if |lines| == 1 {
      KeyOf(l, []);
      assert l + [] == l;
      NoNextLine(l);
    } else {
      LaterLines(l, brk, Joined(lines[1..], brk));
      NothingAnnounced(lines[1..], brk);
    }
  }

  /** What strtoul makes of a sign and a number: 32 bits, saturated and wrapped. */
  function Told(sign: string, m: nat): (n: nat)
    ensures n <= 4294967295
  {
    if m > 4294967295 then 4294967295 else if sign == ['-'] && m > 0 then 4294967296 - m else m
  }

  /** White space within a line. */
  predicate AllBlank(s: string) {
    forall i :: 0 <= i < |s| ==> s[i] as int in {32, 9, 11, 12}
  }

  ghost predicate Says(value: string, blanks: string, sign: string, m: nat, tail: string) {
    && value == blanks + (sign + (Decimal(m) + tail)) && AllBlank(blanks) && sign in {[], ['+'], ['-']}
    && (tail == [] || tail[0] < '0' || tail[0] > '9')
  }

  /** A line that announces `n`: the name in any cases, blanks, perhaps a sign, a number, and perhaps more. */
  ghost predicate Announces(l: string, n: nat) {
    && NamesLength(l)
    && exists blanks: string, sign: string, m: nat, tail: string ::
         Says(l[15..], blanks, sign, m, tail) && n == Told(sign, m)
  }

  lemma {:induction false} SkipBlanks(blanks: string, t: string)
    requires AllBlank(blanks) && t != [] && !IsSpace(t[0])
    ensures SkipSpace(blanks + t) == t
  {
    if blanks == [] {
      assert blanks + t == t;
    } else {
      assert (blanks + t)[1..] == blanks[1..] + t;
      SkipBlanks(blanks[1..], t);
    }
  }

  lemma SignedNumber(sign: string, m: nat, tail: string)
    requires sign in {[], ['+'], ['-']} && (tail == [] || tail[0] < '0' || tail[0] > '9')
    ensures ToUnsigned(sign + (Decimal(m) + tail)) == Told(sign, m)
  {
    var digits := Decimal(m) + tail;
    var t := sign + digits;
    assert IsDigit(digits[0]);
    DecimalRoundTrip(m, tail);
    assert SkipSpace(t) == t;
    if sign == [] {
      assert t == digits;
    } else {
      assert t[1..] == digits;
    }
  }

  lemma AnnouncedNumber(l: string, n: nat, rest: string)
    requires Announces(l, n) && (rest == [] || rest[0] == '\r' || rest[0] == '\n')
    ensures ContentLength(l + rest) == n
  {
    hide ToUnsigned, Decimal;
    var blanks: string, sign: string, m: nat, tail: string :|
      Says(l[15..], blanks, sign, m, tail) && n == Told(sign, m);
    KeyOf(l, rest);
    var t := sign + (Decimal(m) + (tail + rest));
    assert (l + rest)[15..] == blanks + t;
    SignedNumber(sign, m, tail + rest);
    BlanksSkipped(blanks, sign, m, tail + rest);
  }

  lemma BlanksSkipped(blanks: string, sign: string, m: nat, tail: string)
    requires AllBlank(blanks) && sign in {[], ['+'], ['-']}
    ensures var t := sign + (Decimal(m) + tail); ToUnsigned(blanks + t) == ToUnsigned(t)
  {
    var t := sign + (Decimal(m) + tail);
    assert IsDigit(Decimal(m)[0]);
    assert t != [] && !IsSpace(t[0]);
    SkipBlanks(blanks, t);
    SkipBlanks([], t);
    assert [] + t == t;
  }

  /** The first length line of a header tells the length. */
  lemma {:induction false} Announced(lines: seq<string>, brk: string, k: nat, n: nat)
    requires k < |lines| && AllLines(lines) && NoneNamesLength(lines[..k]) && Announces(lines[k], n) && IsBreak(brk)
    ensures ContentLength(Joined(lines, brk)) == n
  {
    hide ContentLength, Announces;
    var l := lines[0];
    if k == 0 {
      var rest := if |lines| == 1 then [] else brk + Joined(lines[1..], brk);
      assert Joined(lines, brk) == l + rest;
      AnnouncedNumber(l, n, rest);
    } else {
      assert IsLine(l) && !NamesLength(lines[..k][0]);
      LaterLines(l, brk, Joined(lines[1..], brk));
      assert lines[1..][..k - 1] == lines[..k][1..];
      Announced(lines[1..], brk, k - 1, n);
    }
  }

  // ----- whole requests -----

  /** A header whose announced body has length `n`. */
  ghost predicate AnnouncesBody(lines: seq<string>, n: nat) {
    || (n == 0 && NoneNamesLength(lines))
    || (exists k :: 0 <= k < |lines| && NoneNamesLength(lines[..k]) && Announces(lines[k], n))
  }

  lemma LengthOf(lines: seq<string>, brk: string, n: nat)
    requires lines != [] && AllLines(lines) && AnnouncesBody(lines, n) && IsBreak(brk)
    ensures ContentLength(Joined(lines, brk)) == n
  {
    if k :| 0 <= k < |lines| && NoneNamesLength(lines[..k]) && Announces(lines[k], n) {
      Announced(lines, brk, k, n);
    } else {
      NothingAnnounced(lines, brk);
    }
  }

  /** A written request is judged by its first line and its body alone, once the body is there. */
  lemma WrittenJudged(lines: seq<string>, brk: string, body: string, more: string)
    requires lines != [] && AllLines(lines) && AnnouncesBody(lines, |body|) && IsBreak(brk)
    requires MayFollow(body + more, brk) && |Header(lines, brk)| + |body| <= 2048
    ensures var r := Parse(Joined(lines, brk), body);
            Judge(Header(lines, brk) + body + more) == if r.Unknown? then Refused else Handed(r)
    ensures Clean(Header(lines, brk) + body + more)
  {
    hide Header, ContentLength, HeaderEnd, Clean, Parse, MayFollow, AnnouncesBody;
    var h, s := Header(lines, brk), Header(lines, brk) + body + more;
    HeaderEnds(lines, brk, body + more);
    assert s == h + (body + more);
    HeaderIsJoined(lines, brk);
    assert s[..|h| - 2 * |brk|] == Joined(lines, brk);
    assert s[|h|..|h| + |body|] == body;
    LengthOf(lines, brk, |body|);
  }

  /** Until the last byte of its body has arrived, a written request is not judged. */
  lemma WrittenPending(lines: seq<string>, brk: string, body: string, k: nat)
    requires lines != [] && AllLines(lines) && AnnouncesBody(lines, |body|) && IsBreak(brk) && MayFollow(body, brk)
    requires |Header(lines, brk)| + |body| <= 2048 && k < |Header(lines, brk)| + |body|
    ensures Judge((Header(lines, brk) + body)[..k]) == Pending
  {
    hide Header, ContentLength, HeaderEnd, AnnouncesBody;
    var h, s := Header(lines, brk), (Header(lines, brk) + body)[..k];
    if k < |h| {
      NotYetEnded(lines, brk, k);
      assert s == h[..k];
    } else {
      var part := body[..k - |h|];
      assert MayFollow(part, brk) by {
        if brk == ['\n'] {
          PrefixHasNone(part, body);
        }
      }
      HeaderEnds(lines, brk, part);
      assert s == h + part;
      HeaderIsJoined(lines, brk);
      assert s[..|h| - 2 * |brk|] == Joined(lines, brk);
      LengthOf(lines, brk, |body|);
    }
  }

  /** A body that does not fit behind its header is refused as soon as the header is complete. */
  lemma TooLargeRefused(lines: seq<string>, brk: string, n: nat, more: string)
    requires lines != [] && AllLines(lines) && AnnouncesBody(lines, n) && IsBreak(brk) && MayFollow(more, brk)
    requires |Header(lines, brk)| + n > 2048
    ensures Judge(Header(lines, brk) + more) == Refused
  {
    hide Header, ContentLength, HeaderEnd, AnnouncesBody, MayFollow;
    var h, s := Header(lines, brk), Header(lines, brk) + more;
    HeaderEnds(lines, brk, more);
    HeaderIsJoined(lines, brk);
    assert s[..|h| - 2 * |brk|] == Joined(lines, brk);
    LengthOf(lines, brk, n);
  }

  // ----- the request line -----

  /** A text that can stand between the spaces of a request line. */
  predicate IsTarget(t: string) {
    ' ' !in t && '\r' !in t && '\n' !in t && '\0' !in t
  }

  /** What may follow the target: nothing, or a space with the version behind it. */
  predicate IsTail(tail: string) {
    tail == [] || tail[0] == ' '
  }

  lemma {:induction false} TargetIs(t: string, rest: string)
    requires IsTarget(t) && (rest == [] || rest[0] == ' ' || rest[0] == '\r' || rest[0] == '\n')
    ensures Target(t + rest) == t
  {
    if t == [] {
      assert t + rest == rest;
    } else {
      assert (t + rest)[0] == t[0] && t[0] in t && (t + rest)[1..] == t[1..] + rest;
      TargetIs(t[1..], rest);
    }
  }

  lemma JoinedStarts(lines: seq<string>, brk: string)
    requires lines != [] && IsBreak(brk)
    ensures exists rest: string :: Joined(lines, brk) == lines[0] + rest && (rest == [] || rest[0] == brk[0])
  {
    if |lines| == 1 {
      assert Joined(lines, brk) == lines[0] + "";
    } else {
      assert Joined(lines, brk) == lines[0] + (brk + Joined(lines[1..], brk));
    }
  }

  /** What follows the method name of a written request line. */
  lemma TargetOfLine(lines: seq<string>, brk: string, name: string, target: string, tail: string)
    requires lines != [] && IsBreak(brk) && lines[0] == name + target + tail && IsTarget(target) && IsTail(tail)
    ensures name <= Joined(lines, brk) && Target(Joined(lines, brk)[|name|..]) == target
  {
    JoinedStarts(lines, brk);
    var rest: string :| Joined(lines, brk) == lines[0] + rest && (rest == [] || rest[0] == brk[0]);
    assert Joined(lines, brk) == name + (target + (tail + rest));
    assert Joined(lines, brk)[|name|..] == target + (tail + rest);
    TargetIs(target, tail + rest);
  }

  /**
   GET with a path and no question mark is handed over with the path and no parameters, whatever
   the version and the other lines say, with either line break.
   */
  lemma GetHandled(path: string, tail: string, lines: seq<string>, brk: string, more: string)
    requires IsTarget(path) && '?' !in path && IsTail(tail)
    requires lines != [] && lines[0] == "GET " + path + tail
    requires AllLines(lines) && NoneNamesLength(lines) && IsBreak(brk) && MayFollow(more, brk)
    requires |Header(lines, brk)| <= 2048
    ensures Judge(Header(lines, brk) + more) == Handed(Get(path, []))
  {
    hide Header, IsTarget, AllLines, Judge, MayFollow;
    GetTarget(path, tail, lines, brk, more);
    UptoIs(path, [], '?');
    assert path + [] == path;
  }

  /** Behind a question mark come the parameters, divided by ampersands. */
  lemma GetWithParams(path: string, params: seq<string>, tail: string, lines: seq<string>, brk: string, more: string)
    requires IsTarget(path) && '?' !in path && params != [] && IsTail(tail)
    requires forall i :: 0 <= i < |params| ==> IsTarget(params[i]) && '&' !in params[i]
    requires lines != [] && lines[0] == "GET " + (path + "?" + JoinPieces(params)) + tail
    requires AllLines(lines) && NoneNamesLength(lines) && IsBreak(brk) && MayFollow(more, brk)
    requires |Header(lines, brk)| <= 2048
    ensures Judge(Header(lines, brk) + more) == Handed(Get(path, params))
  {
    hide Header, JoinPieces, IsTarget, AllLines, Judge, Params, MayFollow;
    var target := path + "?" + JoinPieces(params);
    assert IsTarget(target) by {
      JoinIsTarget(params);
      TargetsJoin(path, JoinPieces(params));
    }
    GetTarget(target, tail, lines, brk, more);
    ParamsOf(path, params);
  }

  lemma GetTarget(target: string, tail: string, lines: seq<string>, brk: string, more: string)
    requires IsTarget(target) && IsTail(tail)
    requires lines != [] && lines[0] == "GET " + target + tail
    requires AllLines(lines) && NoneNamesLength(lines) && IsBreak(brk) && MayFollow(more, brk)
    requires |Header(lines, brk)| <= 2048
    ensures Judge(Header(lines, brk) + more) == Handed(Get(Upto(target, '?'), Params(target)))
  {
    hide Header, Joined, Judge, IsTarget, AllLines, NoneNamesLength, Target, Parse, AnnouncesBody, Params, MayFollow;
    hide IsBreak, IsTail;
    TargetOfLine(lines, brk, "GET ", target, tail);
    ParseGet(Joined(lines, brk), target);
    NoBody(lines);
    assert [] + more == more;
    WrittenJudged(lines, brk, [], more);
    assert Header(lines, brk) + [] + more == Header(lines, brk) + more;
  }

  lemma TargetsJoin(a: string, b: string)
    requires IsTarget(a) && IsTarget(b)
    ensures IsTarget(a + "?" + b)
  {
  }

  lemma NoBody(lines: seq<string>)
    requires NoneNamesLength(lines)
    ensures AnnouncesBody(lines, |""|)
  {
  }

  lemma ParseGet(header: string, target: string)
    requires "GET " <= header && Target(header[4..]) == target
    ensures Parse(header, []) == Get(Upto(target, '?'), Params(target))
  {
  }

  lemma ParamsOf(path: string, params: seq<string>)
    requires '?' !in path && params != [] && forall i :: 0 <= i < |params| ==> '&' !in params[i]
    ensures var target := path + "?" + JoinPieces(params); Upto(target, '?') == path && Params(target) == params
  {
    hide JoinPieces, Pieces;
    var target := path + "?" + JoinPieces(params);
    assert target == path + ("?" + JoinPieces(params));
    UptoIs(path, "?" + JoinPieces(params), '?');
    assert target[|path| + 1..] == JoinPieces(params);
    PiecesOfJoin(params);
  }

  lemma {:induction false} JoinIsTarget(params: seq<string>)
    requires params != [] && forall i :: 0 <= i < |params| ==> IsTarget(params[i])
    ensures IsTarget(JoinPieces(params))
  {
    if |params| > 1 {
      JoinIsTarget(params[1..]);
    }
  }

  /** POST is handed over with its target and a body of the announced length. */
  lemma PostHandled(target: string, tail: string, lines: seq<string>, brk: string, body: string, more: string)
    requires IsTarget(target) && IsTail(tail)
    requires lines != [] && lines[0] == "POST " + target + tail
    requires AllLines(lines) && AnnouncesBody(lines, |body|) && IsBreak(brk) && MayFollow(body + more, brk)
    requires |Header(lines, brk)| + |body| <= 2048
    ensures Judge(Header(lines, brk) + body + more) == Handed(Post(target, body))
  {
    hide Header, Joined, Judge, IsTarget, AllLines, Target, AnnouncesBody, MayFollow, IsBreak, IsTail;
    TargetOfLine(lines, brk, "POST ", target, tail);
    WrittenJudged(lines, brk, body, more);
    assert Joined(lines, brk)[0] == "POST "[0] == 'P';
  }

  /** Any other method is refused once its announced body is there. */
  lemma OtherMethodRefused(lines: seq<string>, brk: string, body: string, more: string)
    requires lines != [] && AllLines(lines) && AnnouncesBody(lines, |body|) && IsBreak(brk)
    requires MayFollow(body + more, brk) && |Header(lines, brk)| + |body| <= 2048
    requires !("GET " <= lines[0]) && !("POST " <= lines[0])
    ensures Judge(Header(lines, brk) + body + more) == Refused
  {
    hide Header, Judge, AnnouncesBody, MayFollow;
    WrittenJudged(lines, brk, body, more);
    NoOtherPrefix(lines, brk, "GET ");
    NoOtherPrefix(lines, brk, "POST ");
  }

  lemma NoOtherPrefix(lines: seq<string>, brk: string, name: string)
    requires lines != [] && IsBreak(brk) && '\r' !in name && '\n' !in name && !(name <= lines[0])
    ensures !(name <= Joined(lines, brk))
  {
    var l, t := lines[0], Joined(lines, brk);
    if |l| >= |name| {
      assert t[..|name|] == l[..|name|];
    } else if |lines| > 1 {
      assert t[|l|] == brk[0] && name[|l|] in name;
    }
  }
}
