/**
 Splitting a command's arguments into tokens, in place: separators and quotes become single
 zeros, backslashes disappear, and two zeros end the list.
 */
module Tokenizer {
  import opened Common
  import opened PackedStrings

  function Flush(cur: string): seq<string> {
    if cur == [] then [] else [cur]
  }

  /**
   The tokens of the rest of a text, inside quotes or not, after a backslash or not, with
   `cur` collected so far: a space outside quotes and any quote end a token, a backslash
   makes the next character an ordinary one.
   */
  function Split(s: string, quoted: bool, escaped: bool, cur: string): seq<string> {
    if s == [] then Flush(cur)
    else if escaped then Split(s[1..], quoted, false, cur + [s[0]])
    else if s[0] == '\\' then Split(s[1..], quoted, true, cur)
    else if s[0] == '"' then Flush(cur) + Split(s[1..], !quoted, false, [])
    else if s[0] == ' ' && !quoted then Flush(cur) + Split(s[1..], quoted, false, [])
    else Split(s[1..], quoted, false, cur + [s[0]])
  }

  function Tokens(s: string): seq<string> {
    Split(s, false, false, [])
  }

  lemma {:induction false} SplitItems(s: string, quoted: bool, escaped: bool, cur: string)
    requires NoZero(s) && NoZero(cur)
    ensures AllItems(Split(s, quoted, escaped, cur))
    decreases |s|
  {
    if s != [] {
      SplitItems(s[1..], quoted, false, cur + [s[0]]);
      SplitItems(s[1..], quoted, true, cur);
      SplitItems(s[1..], quoted, false, []);
      SplitItems(s[1..], !quoted, false, []);
    }
  }

  // ----- tokens survive quoting -----

  predicate Special(c: char) {
    c == ' ' || c == '"' || c == '\\'
  }

  /** A token with its special characters escaped. */
  function Quote(token: string): string {
    if token == [] then [] else (if Special(token[0]) then ['\\', token[0]] else [token[0]]) + Quote(token[1..])
  }

  /** Escaped tokens separated by spaces. */
  function Join(tokens: seq<string>): string {
    if tokens == [] then []
    else if |tokens| == 1 then Quote(tokens[0])
    else Quote(tokens[0]) + [' '] + Join(tokens[1..])
  }

  lemma {:induction false} SplitQuoted(token: string, rest: string, cur: string)
    ensures Split(Quote(token) + rest, false, false, cur) == Split(rest, false, false, cur + token)
    decreases |token|
  {
    if token == [] {
      assert Quote(token) + rest == rest && cur + token == cur;
    } else {
      var c := token[0];
      SplitQuoted(token[1..], rest, cur + [c]);
      assert cur + [c] + token[1..] == cur + token;
      assert Quote(token) + rest == (if Special(c) then ['\\', c] else [c]) + (Quote(token[1..]) + rest);
      SplitOne(c, Quote(token[1..]) + rest, cur);
    }
  }

  lemma SplitOne(c: char, tail: string, cur: string)
    ensures Split((if Special(c) then ['\\', c] else [c]) + tail, false, false, cur) ==
            Split(tail, false, false, cur + [c])
  {
    var text := [c] + tail;
    assert text[0] == c && text[1..] == tail;
    if Special(c) {
      assert Split(text, false, true, cur) == Split(tail, false, false, cur + [c]);
      var escaped := ['\\', c] + tail;
      assert escaped[0] == '\\' && escaped[1..] == text;
    }
  }

  /** Round trip: any list of nonempty tokens, escaped and joined by spaces, is split into the same list. */
  lemma {:induction false} TokensOfJoin(tokens: seq<string>)
    requires AllItems(tokens)
    ensures Tokens(Join(tokens)) == tokens
    decreases |tokens|
  {
    if |tokens| == 1 {
      LastToken(tokens[0]);
      assert tokens == [tokens[0]];
    } else if tokens != [] {
      FirstToken(tokens[0], Join(tokens[1..]));
      TokensOfJoin(tokens[1..]);
      assert tokens == [tokens[0]] + tokens[1..];
    }
  }

  // ----- quotes -----

  /** A token as it can be written: bare, with a backslash before each special character, or in quotes. */
  datatype Piece = Bare(text: string) | InQuotes(text: string)

  /** Inside quotes only quotes and backslashes need a backslash. */
  function QuoteInside(token: string): string {
    if token == [] then []
    else (if token[0] == '"' || token[0] == '\\' then ['\\', token[0]] else [token[0]]) + QuoteInside(token[1..])
  }

  function WritePiece(p: Piece): string {
    match p
    case Bare(t) => Quote(t)
    case InQuotes(t) => ['"'] + QuoteInside(t) + ['"']
  }

  function Blanks(n: nat): string {
    if n == 0 then [] else [' '] + Blanks(n - 1)
  }

  /** Pieces, each with some spaces before it. */
  function WritePieces(ps: seq<Piece>, gaps: seq<nat>): string
    requires |gaps| == |ps|
  {
    if ps == [] then [] else Blanks(gaps[0]) + (WritePiece(ps[0]) + WritePieces(ps[1..], gaps[1..]))
  }

  function Texts(ps: seq<Piece>): seq<string> {
    if ps == [] then [] else [ps[0].text] + Texts(ps[1..])
  }

  /** No piece is empty, and between two bare pieces there is a space. */
  predicate Separable(ps: seq<Piece>, gaps: seq<nat>) {
    && |gaps| == |ps| && (forall i :: 0 <= i < |ps| ==> ps[i].text != [])
    && (forall i :: 0 < i < |ps| && ps[i - 1].Bare? && ps[i].Bare? ==> gaps[i] > 0)
  }

  lemma {:induction false} SplitInside(token: string, rest: string, cur: string)
    ensures Split(QuoteInside(token) + rest, true, false, cur) == Split(rest, true, false, cur + token)
    decreases |token|
  {
    hide Split;
    if token == [] {
      assert QuoteInside(token) + rest == rest && cur + token == cur;
    } else {
      var c := token[0];
      SplitInside(token[1..], rest, cur + [c]);
      assert cur + [c] + token[1..] == cur + token;
      SplitOneInside(c, QuoteInside(token[1..]) + rest, cur);
      assert QuoteInside(token) + rest ==
             (if c == '"' || c == '\\' then ['\\', c] else [c]) + (QuoteInside(token[1..]) + rest);
    }
  }

  lemma SplitOneInside(c: char, tail: string, cur: string)
    ensures Split((if c == '"' || c == '\\' then ['\\', c] else [c]) + tail, true, false, cur) ==
            Split(tail, true, false, cur + [c])
  {
    var text := [c] + tail;
    assert text[0] == c && text[1..] == tail;
    if c == '"' || c == '\\' {
      assert Split(text, true, true, cur) == Split(tail, true, false, cur + [c]);
      var escaped := ['\\', c] + tail;
      assert escaped[0] == '\\' && escaped[1..] == text;
    }
  }

  lemma {:induction false} SplitBlanks(n: nat, rest: string)
    ensures Split(Blanks(n) + rest, false, false, []) == Split(rest, false, false, [])
  {
    if n == 0 {
      assert Blanks(0) + rest == rest;
    } else {
      var text := Blanks(n) + rest;
      assert text[0] == ' ' && text[1..] == Blanks(n - 1) + rest;
      SplitBlanks(n - 1, rest);
    }
  }

  /** A space or a quote ends a bare token that stands before it. */
  lemma EndsBare(rest: string, cur: string)
    requires rest == [] || rest[0] == ' ' || rest[0] == '"'
    ensures Split(rest, false, false, cur) == Flush(cur) + Split(rest, false, false, [])
  {
    assert Flush(cur) + [] == Flush(cur);
  }

  lemma SplitPiece(p: Piece, rest: string)
    requires p.text != [] && (p.Bare? ==> rest == [] || rest[0] == ' ' || rest[0] == '"')
    ensures Split(WritePiece(p) + rest, false, false, []) == [p.text] + Split(rest, false, false, [])
  {
    hide Split, Quote, QuoteInside;
    assert [] + p.text == p.text;
    if p.Bare? {
      SplitQuoted(p.text, rest, []);
      EndsBare(rest, p.text);
    } else {
      SplitInside(p.text, ['"'] + rest, []);
      OpensQuote(QuoteInside(p.text) + (['"'] + rest));
      ClosesQuote(rest, p.text);
      assert WritePiece(p) + rest == ['"'] + (QuoteInside(p.text) + (['"'] + rest));
    }
  }

  lemma OpensQuote(inner: string)
    ensures Split(['"'] + inner, false, false, []) == Split(inner, true, false, [])
  {
    assert (['"'] + inner)[1..] == inner;
    assert [] + Split(inner, true, false, []) == Split(inner, true, false, []);
  }

  lemma ClosesQuote(rest: string, cur: string)
    ensures Split(['"'] + rest, true, false, cur) == Flush(cur) + Split(rest, false, false, [])
  {
    assert (['"'] + rest)[1..] == rest;
  }

  lemma PieceStarts(ps: seq<Piece>, gaps: seq<nat>)
    requires |gaps| == |ps| && ps != [] && (gaps[0] > 0 || ps[0].InQuotes?)
    ensures WritePieces(ps, gaps) != [] && WritePieces(ps, gaps)[0] in {' ', '"'}
  {
  }

  /**
   Any list of nonempty tokens, each written bare or in quotes, with spaces between them where
   two bare ones meet and anywhere else at will, is split into the same list.
   */
  lemma {:induction false} TokensOfPieces(ps: seq<Piece>, gaps: seq<nat>)
    requires Separable(ps, gaps)
    ensures Tokens(WritePieces(ps, gaps)) == Texts(ps)
    decreases |ps|
  {
    hide Split, WritePiece;
    if ps == [] {
      NoTokens();
    } else {
      var rest := WritePieces(ps[1..], gaps[1..]);
      SplitBlanks(gaps[0], WritePiece(ps[0]) + rest);
      if |ps| > 1 && ps[0].Bare? {
        assert ps[1..][0] == ps[1] && gaps[1..][0] == gaps[1];
        PieceStarts(ps[1..], gaps[1..]);
      }
      SplitPiece(ps[0], rest);
      TokensOfPieces(ps[1..], gaps[1..]);
    }
  }

  lemma NoTokens()
    ensures Split([], false, false, []) == []
  {
  }

  lemma LastToken(t: string)
    requires t != []
    ensures Tokens(Quote(t)) == [t]
  {
    SplitQuoted(t, [], []);
    assert Quote(t) + [] == Quote(t) && [] + t == t;
  }

  lemma FirstToken(t: string, tail: string)
    requires t != []
    ensures Tokens(Quote(t) + [' '] + tail) == [t] + Tokens(tail)
  {
    var rest := [' '] + tail;
    SplitQuoted(t, rest, []);
    assert Quote(t) + [' '] + tail == Quote(t) + rest;
    assert [] + t == t && rest[0] == ' ' && rest[1..] == tail;
  }

  // ----- the rewriting in place -----

  /**
   embeddedCliTokenizeArgs on the C string at `start`, which has one spare character after
   its terminator. The write position never overtakes the read position, so no character is
   lost before it has been read.
   */
  method TokenizeArgs(buf: array<char>, start: nat, ghost text: string)
    requires start + |text| + 1 < buf.Length && NoZero(text)
    requires (forall j {:trigger text[j]} :: 0 <= j < |text| ==> buf[start + j] == text[j])
             && buf[start + |text|] == '\0'
    modifies buf
    ensures HoldsTokens(buf[start..], Tokens(text))
    ensures forall j :: 0 <= j < start || start + |text| + 2 <= j < buf.Length ==> buf[j] == old(buf[j])
  {
    hide Collected, Split, Tokens, Emitted, HoldsTokens;
    var quotesEnabled, escapeActivated := false, false;
    var insertPos, i := 0, 0;
    ghost var w := Writer([], [], []);
    ghost var n := |text|;
    CollectNothing(text);
    while buf[start + i] != '\0'
      invariant 0 <= insertPos <= i <= n && buf[start + n] == '\0'
      invariant forall j :: 0 <= j < start || start + n + 2 <= j < buf.Length ==> buf[j] == old(buf[j])
      invariant forall j {:trigger text[j]} :: i <= j < n ==> buf[start + j] == text[j]
      invariant i < n ==> buf[start + i] == text[i]
      invariant buf[start..start + insertPos] == w.out
      invariant Collected(text, i, quotesEnabled, escapeActivated, w)
      decreases n - i
    {
      assert text[i] == buf[start + i];
      CollectStep(text, i, quotesEnabled, escapeActivated, w);
      ghost var c := text[i];
      ghost var action := ActionOf(c, quotesEnabled, escapeActivated);
      insertPos, quotesEnabled, escapeActivated :=
        Consume(buf, start, insertPos, i, n, quotesEnabled, escapeActivated, w.out);
      w := Advance(w, c, action);
      i := i + 1;
    }
    CollectAll(text, quotesEnabled, escapeActivated, w);
    Terminate(buf, start, insertPos, n, w);
  }

  datatype Action = Skip | End | Keep

  function ActionOf(c: char, quoted: bool, escaped: bool): Action {
    if escaped then Keep else if c == '\\' then Skip else if c == '"' || (c == ' ' && !quoted) then End else Keep
  }

  function QuotedAfter(c: char, quoted: bool, escaped: bool): bool {
    if c == '"' && !escaped then !quoted else quoted
  }

  /** The writer's state: the finished tokens, the open one, and the text written. */
  datatype Writer = Writer(done: seq<string>, cur: string, out: string)

  /** The text after one more character has been written, a zero only after something else. */
  function Emitted(out: string, c: char): string {
    if c != '\0' || (out != [] && out[|out| - 1] != '\0') then out + [c] else out
  }

  function WrittenAfter(out: string, c: char, action: Action): string {
    match action
    case Skip => out
    case End => Emitted(out, '\0')
    case Keep => Emitted(out, c)
  }

  function Advance(w: Writer, c: char, action: Action): Writer {
    match action
    case Skip => w
    case End => Writer(w.done + Flush(w.cur), [], WrittenAfter(w.out, c, action))
    case Keep => Writer(w.done, w.cur + [c], WrittenAfter(w.out, c, action))
  }

  /** The body of the tokenizer's loop. */
  method Consume(buf: array<char>, start: nat, insertPos: nat, i: nat, ghost n: nat,
                 quotesEnabled: bool, escapeActivated: bool, ghost out: string)
    returns (next: nat, quoted: bool, escaped: bool)
    requires insertPos <= i < n && start + n + 1 < buf.Length && buf[start..start + insertPos] == out
    modifies buf
    ensures var c, action := old(buf[start + i]), ActionOf(old(buf[start + i]), quotesEnabled, escapeActivated);
            && next <= i + 1 && buf[start..start + next] == WrittenAfter(out, c, action)
            && quoted == QuotedAfter(c, quotesEnabled, escapeActivated) && escaped == action.Skip?
    ensures forall j :: 0 <= j < start || start + i + 1 <= j < buf.Length ==> buf[j] == old(buf[j])
  {
    var currentChar := buf[start + i];
    next, quoted, escaped := insertPos, quotesEnabled, false;
    if escapeActivated {
    } else if currentChar == '\\' {
      escaped := true;
      return;
    } else if currentChar == '"' {
      quoted := !quotesEnabled;
      currentChar := '\0';
    } else if !quotesEnabled && currentChar == ' ' {
      currentChar := '\0';
    }
    next := PutChar(buf, start, insertPos, i + 1, n, currentChar, out);
  }

  /** The two zeros after the tokens. */
  method Terminate(buf: array<char>, start: nat, insertPos: nat, ghost n: nat, ghost w: Writer)
    requires insertPos <= n && start + n + 1 < buf.Length && buf[start..start + insertPos] == w.out
    requires AllItems(w.done) && NoZero(w.cur) && w.out == Pack(w.done) + w.cur
    modifies buf
    ensures HoldsTokens(buf[start..], w.done + Flush(w.cur))
    ensures forall j :: 0 <= j < start || start + n + 2 <= j < buf.Length ==> buf[j] == old(buf[j])
  {
    buf[start + insertPos] := '\0';
    buf[start + insertPos + 1] := '\0';
    assert buf[start..][..insertPos] == w.out;
    Finish(buf[start..], w.done, w.cur, w.out);
  }

  /** After `i` characters the writer's tokens and the split of the rest make up the reference split. */
  ghost predicate Collected(text: string, i: nat, quoted: bool, escaped: bool, w: Writer) {
    && i <= |text| && AllItems(w.done) && NoZero(w.cur) && w.out == Pack(w.done) + w.cur
    && Tokens(text) == w.done + Split(text[i..], quoted, escaped, w.cur)
  }

  lemma CollectNothing(text: string)
    ensures Collected(text, 0, false, false, Writer([], [], []))
  {
    assert text[0..] == text;
  }

  lemma CollectAll(text: string, quoted: bool, escaped: bool, w: Writer)
    requires Collected(text, |text|, quoted, escaped, w)
    ensures Tokens(text) == w.done + Flush(w.cur) && AllItems(w.done) && NoZero(w.cur) && w.out == Pack(w.done) + w.cur
  {
    assert text[|text|..] == [];
  }

  lemma CollectStep(text: string, i: nat, quoted: bool, escaped: bool, w: Writer)
    requires i < |text| && NoZero(text) && Collected(text, i, quoted, escaped, w)
    ensures var c, action := text[i], ActionOf(text[i], quoted, escaped);
            Collected(text, i + 1, QuotedAfter(c, quoted, escaped), action.Skip?, Advance(w, c, action))
  {
    AdvanceWrites(w, text[i], ActionOf(text[i], quoted, escaped));
    AdvanceSplits(text, i, quoted, escaped, w);
  }

  lemma AdvanceWrites(w: Writer, c: char, action: Action)
    requires AllItems(w.done) && NoZero(w.cur) && w.out == Pack(w.done) + w.cur && c != '\0'
    ensures var w' := Advance(w, c, action); AllItems(w'.done) && NoZero(w'.cur) && w'.out == Pack(w'.done) + w'.cur
  {
    hide Pack;
    PackFlush(w.done, w.cur);
    EndsInZero(w.done, w.cur);
    assert Pack(w.done) + (w.cur + [c]) == Pack(w.done) + w.cur + [c];
  }

  lemma AdvanceSplits(text: string, i: nat, quoted: bool, escaped: bool, w: Writer)
    requires i < |text| && Tokens(text) == w.done + Split(text[i..], quoted, escaped, w.cur)
    ensures var c, action := text[i], ActionOf(text[i], quoted, escaped);
            var w' := Advance(w, c, action);
            Tokens(text) == w'.done + Split(text[i + 1..], QuotedAfter(c, quoted, escaped), action.Skip?, w'.cur)
  {
    SplitAt(text, i, quoted, escaped, w.cur);
    Regroup(w.done, Flush(w.cur), Split(text[i + 1..], QuotedAfter(text[i], quoted, escaped), false, []));
  }

  lemma Regroup(a: seq<string>, b: seq<string>, c: seq<string>)
    ensures a + (b + c) == (a + b) + c
  {
  }

  /** One character of the reference split, seen from position `i`. */
  lemma SplitAt(text: string, i: nat, quoted: bool, escaped: bool, cur: string)
    requires i < |text|
    ensures var c, rest := text[i], text[i + 1..];
            Split(text[i..], quoted, escaped, cur) ==
            if escaped then Split(rest, quoted, false, cur + [c])
            else if c == '\\' then Split(rest, quoted, true, cur)
            else if c == '"' then Flush(cur) + Split(rest, !quoted, false, [])
            else if c == ' ' && !quoted then Flush(cur) + Split(rest, quoted, false, [])
            else Split(rest, quoted, false, cur + [c])
  {
    assert text[i..][0] == text[i] && text[i..][1..] == text[i + 1..];
  }

  /** One character written behind the read position `i`. */
  method PutChar(buf: array<char>, start: nat, insertPos: nat, ghost i: nat, ghost n: nat, c: char, ghost out: string)
    returns (next: nat)
    requires insertPos < i <= n && start + n + 1 < buf.Length
    requires buf[start..start + insertPos] == out
    modifies buf
    ensures next <= i && buf[start..start + next] == Emitted(out, c)
    ensures forall j :: 0 <= j < start || start + i <= j < buf.Length ==> buf[j] == old(buf[j])
  {
    next := insertPos;
    assert insertPos > 0 ==> out[insertPos - 1] == buf[start + insertPos - 1];
    if c != '\0' || (insertPos > 0 && buf[start + insertPos - 1] != '\0') {
      buf[start + insertPos] := c;
      next := insertPos + 1;
      assert buf[start..start + next] == out + [c];
    }
  }

  /** What the writer has produced ends in a zero or is empty exactly when no token is open. */
  lemma EndsInZero(done: seq<string>, cur: string)
    requires NoZero(cur)
    ensures var w := Pack(done) + cur; cur == [] <==> w == [] || w[|w| - 1] == '\0'
  {
  }

  lemma PackNothing()
    ensures Pack([]) == []
  {
  }

  lemma PackFlush(done: seq<string>, cur: string)
    ensures Pack(done + Flush(cur)) == Pack(done) + if cur == [] then [] else cur + ['\0']
  {
    if cur == [] {
      assert done + Flush(cur) == done;
    } else {
      assert (done + [cur])[..|done|] == done;
    }
  }

  lemma Finish(s: string, done: seq<string>, cur: string, out: string)
    requires AllItems(done) && NoZero(cur) && out == Pack(done) + cur
    requires |s| >= |out| + 2 && s[..|out|] == out && s[|out|] == s[|out| + 1] == '\0'
    ensures HoldsTokens(s, done + Flush(cur))
  {
    hide Pack;
    PackNothing();
    PackFlush(done, cur);
    var p := Pack(done + Flush(cur));
    if cur == [] {
      assert p == out;
    } else {
      assert p == out + ['\0'];
    }
    assert s[..|p|] == p && s[..|p| + 1] == p + ['\0'];
    if p == [] {
      assert s[..2] == ['\0', '\0'];
    }
  }

  // ----- reading the tokens -----

  /** embeddedCliGetTokenCount. */
  method GetTokenCount(buf: array<char>, start: nat, ghost tokens: seq<string>) returns (count: nat)
    requires start <= buf.Length && HoldsTokens(buf[start..], tokens)
    ensures count == |tokens|
  {
    ghost var s := buf[start..];
    assert forall j :: 0 <= j < |s| ==> s[j] == buf[start + j];
    if tokens == [] {
      assert ['\0', '\0'][0] == s[0];
    } else {
      AfterItemZero(s, tokens);
    }
    if buf[start] == '\0' {
      return 0;
    }
    StartOffset(tokens);
    var i := 0;
    count := 1;
    while true
      invariant 1 <= count <= |tokens| && Within(tokens, count - 1, i)
      decreases |s| - i
    {
      Scan(s, tokens, count - 1, i);
      if buf[start + i] == '\0' {
        if buf[start + i + 1] == '\0' {
          break;
        }
        count := count + 1;
      }
      i := i + 1;
    }
  }

  lemma AfterItemZero(s: string, tokens: seq<string>)
    requires tokens != [] && AllItems(tokens) && Pack(tokens) <= s
    ensures s != [] && s[0] != '\0'
  {
    StartOffset(tokens);
    ItemChar(s, tokens, 0, 0);
  }

  /** embeddedCliGetToken: the token's text, or nothing. */
  method GetToken(buf: array<char>, start: nat, pos: nat, ghost tokens: seq<string>) returns (found: bool, at: nat)
    requires start <= buf.Length && HoldsTokens(buf[start..], tokens)
    ensures found <==> 1 <= pos <= |tokens|
    ensures found ==> start <= at < buf.Length && at - start == Offset(tokens, pos - 1)
                      && TextAt(buf[start..], at - start) == tokens[pos - 1]
  {
    var i := GetTokenPosition(buf, start, pos, tokens);
    if i < 0 {
      return false, 0;
    }
    ItemText(buf[start..], tokens, pos - 1);
    ItemAt(buf[start..], tokens, pos - 1);
    return true, start + i;
  }

  /** embeddedCliFindToken: the first position of a token, counted from 1, or 0. */
  method FindToken(buf: array<char>, start: nat, token: string, ghost tokens: seq<string>) returns (pos: nat)
    requires start <= buf.Length && HoldsTokens(buf[start..], tokens)
    ensures pos <= |tokens|
    ensures pos == 0 ==> token !in tokens
    ensures pos > 0 ==> tokens[pos - 1] == token && token !in tokens[..pos - 1]
  {
    var size := GetTokenCount(buf, start, tokens);
    pos := 1;
    while pos <= size
      invariant 1 <= pos <= size + 1 && token !in tokens[..pos - 1]
    {
      var same := TokenIs(buf, start, pos, token, tokens);
      if same {
        return;
      }
      assert tokens[..pos] == tokens[..pos - 1] + [tokens[pos - 1]];
      pos := pos + 1;
    }
    assert tokens[..size] == tokens;
    pos := 0;
  }

  method TokenIs(buf: array<char>, start: nat, pos: nat, token: string, ghost tokens: seq<string>) returns (same: bool)
    requires start <= buf.Length && HoldsTokens(buf[start..], tokens) && 1 <= pos <= |tokens|
    ensures same <==> tokens[pos - 1] == token
  {
    var _, at := GetToken(buf, start, pos, tokens);
    ItemAt(buf[start..], tokens, pos - 1);
    ItemText(buf[start..], tokens, pos - 1);
    ghost var o := Offset(tokens, pos - 1);
    assert buf[start..][o + |tokens[pos - 1]|] == buf[start + o + |tokens[pos - 1]|];
    ShiftedText(buf[..], start, at - start);
    same := Equals(buf, at, token);
  }

  lemma {:induction false} ShiftedText(s: string, start: nat, i: nat)
    requires start + i <= |s|
    ensures TextAt(s, start + i) == TextAt(s[start..], i)
    decreases |s| - i
  {
    if start + i < |s| {
      ShiftedText(s, start, i + 1);
    }
  }
}
