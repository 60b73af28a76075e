/** Which command an entered line runs, and that it does not matter how line breaks are sent. */
module EnteredLines {
  import opened Terminal
  import opened Commands
  import opened CommandLine
  import Completion
  import History

  // ----- completion before dispatch -----

  ghost predicate CommonToAll(cfg: Config, text: string, p: string) {
    forall k :: 0 <= k < |cfg.bindings| && text <= cfg.bindings[k].name ==> p <= cfg.bindings[k].name
  }

  /** The text with its completion is the longest string that all binding names extending the text start with. */
  lemma CompletionIsLongestCommon(cfg: Config, s: Line, p: string)
    requires Text(s) != [] && exists k :: 0 <= k < |cfg.bindings| && Text(s) <= cfg.bindings[k].name
    ensures CommonToAll(cfg, Text(s), p) <==> p <= Text(s) + Suffix(cfg, s)
  {
    var names, cands := Names(cfg.bindings), Candidates(cfg, s);
    Completion.CandidatesAre(names, Text(s));
    var k :| 0 <= k < |cfg.bindings| && Text(s) <= cfg.bindings[k].name;
    assert names[k] in cands;
    Completion.CommonIsLongest(cands);
    Completion.CommonExtends(names, Text(s));
    Completion.PrefixAndRest(Text(s), cands[0], Completion.CommonLength(cands));
    CommonNames(cfg, s, p);
  }

  lemma CommonNames(cfg: Config, s: Line, p: string)
    ensures CommonToAll(cfg, Text(s), p) <==> Completion.IsCommonPrefix(p, Candidates(cfg, s))
  {
    var names, cands := Names(cfg.bindings), Candidates(cfg, s);
    Completion.CandidatesAre(names, Text(s));
    if CommonToAll(cfg, Text(s), p) {
      forall x | x in cands ensures p <= x {
        var k :| 0 <= k < |names| && names[k] == x;
      }
    }
    if Completion.IsCommonPrefix(p, cands) {
      forall k | 0 <= k < |cfg.bindings| && Text(s) <= cfg.bindings[k].name ensures p <= cfg.bindings[k].name {
        assert names[k] in cands;
      }
    }
  }

  /** The calls after Enter, given the completed text. */
  lemma EnterCalls(cfg: Config, s: Line, text: string)
    requires Text(AutocompleteRequest(cfg, s)) == text && !AllSpaces(text)
    ensures Enter(cfg, s).calls == s.calls + [Called(cfg, text)]
    ensures Enter(cfg, s).items == History.Entered(s.items, text, cfg.historySize)
  {
  }

  lemma TextAfter(cfg: Config, s: Line)
    ensures Text(AutocompleteRequest(cfg, s)) == if Completes(cfg, s) then CompletedText(cfg, s) else Text(s)
  {
    assert CompletedText(cfg, s) + [] == CompletedText(cfg, s) && Text(s) + [] == Text(s);
  }

  /** Enter on a binding's full name runs the first binding of that name, even when longer names extend it. */
  lemma EnterExactName(cfg: Config, s: Line, k: nat)
    requires GoodConfig(cfg) && k < |cfg.bindings| && Text(s) == cfg.bindings[k].name
    requires forall i :: 0 <= i < k ==> cfg.bindings[i].name != cfg.bindings[k].name
    ensures Enter(cfg, s).calls ==
            s.calls + [if cfg.bindings[k].runs then Invoke(k, NoArgs) else Unbound(cfg.onCommand, Text(s), [])]
  {
    var names, name := Names(cfg.bindings), Text(s);
    assert names[k] == name && GoodBinding(cfg.bindings[k], cfg.cmdMaxSize);
    Completion.ExactIsCommon(names, name);
    TextAfter(cfg, s);
    LookupFinds(cfg.bindings, k);
    var trailing := if Completed(cfg, s).candidateCount == 1 then [' '] else [];
    assert Suffix(cfg, s) == [];
    assert name + [] + trailing == name + trailing;
    assert !Completes(cfg, s) ==> name == name + trailing;
    assert (name + trailing)[0] == name[0];
    NameRuns(cfg.bindings, cfg.onCommand, name, trailing);
    EnterCalls(cfg, s, name + trailing);
  }

  /** Enter on a text that exactly one binding's name extends runs that binding. */
  lemma EnterUniquePrefix(cfg: Config, s: Line, k: nat)
    requires GoodConfig(cfg) && k < |cfg.bindings| && Text(s) != []
    requires forall i :: 0 <= i < |cfg.bindings| ==> (Text(s) <= cfg.bindings[i].name <==> i == k)
    ensures Enter(cfg, s).calls ==
            s.calls + [if cfg.bindings[k].runs then Invoke(k, NoArgs)
                       else Unbound(cfg.onCommand, cfg.bindings[k].name, [])]
  {
    var names, name := Names(cfg.bindings), cfg.bindings[k].name;
    assert GoodBinding(cfg.bindings[k], cfg.cmdMaxSize);
    OneCandidate(names, Text(s), k);
    Completion.PrefixAndRest(Text(s), name, |name|);
    TextAfter(cfg, s);
    assert Text(s) + Suffix(cfg, s) == name[..|name|] == name;
    forall i | 0 <= i < k ensures cfg.bindings[i].name != name {
      assert !(Text(s) <= cfg.bindings[i].name);
    }
    LookupFinds(cfg.bindings, k);
    assert (name + [' '])[0] == name[0];
    NameRuns(cfg.bindings, cfg.onCommand, name, [' ']);
    EnterCalls(cfg, s, name + [' ']);
  }

  lemma {:induction false} OneCandidate(names: seq<string>, line: string, k: nat)
    requires k < |names| && forall i :: 0 <= i < |names| ==> (line <= names[i] <==> i == k)
    ensures Completion.Candidates(names, line) == [names[k]]
  {
    var n := |names| - 1;
    if k == n {
      NoCandidate(names[..n], line);
    } else {
      OneCandidate(names[..n], line, k);
      assert Completion.Candidates(names[..n], line) + [] == [names[k]];
    }
  }

  lemma {:induction false} NoCandidate(names: seq<string>, line: string)
    requires forall i :: 0 <= i < |names| ==> !(line <= names[i])
    ensures Completion.Candidates(names, line) == []
  {
    if names != [] {
      NoCandidate(names[..|names| - 1], line);
    }
  }

  // ----- line breaks -----

  /** CR, LF, CR LF or LF CR. */
  predicate IsTerminator(b: string) {
    b == "\r" || b == "\n" || b == "\r\n" || b == "\n\r"
  }

  function Typed(lines: seq<string>, breaks: seq<string>): string
    requires |lines| == |breaks|
  {
    if lines == [] then [] else
      var n := |lines| - 1;
      Typed(lines[..n], breaks[..n]) + (lines[n] + breaks[n])
  }

  /** A displayable character without regard to what came before it. */
  function TypeChar(cfg: Config, s: Line, c: char): Line {
    Live(cfg, CharInput(cfg, s, c))
  }

  function TypeLine(cfg: Config, s: Line, line: string): Line {
    if line == [] then s else TypeChar(cfg, TypeLine(cfg, s, line[..|line| - 1]), line[|line| - 1])
  }

  /** The lines typed and entered one after the other, without any line breaks. */
  function Session(cfg: Config, s: Line, lines: seq<string>): Line {
    if lines == [] then s else Enter(cfg, TypeLine(cfg, Session(cfg, s, lines[..|lines| - 1]), lines[|lines| - 1]))
  }

  predicate SameButLast(a: Line, b: Line) {
    a.(lastChar := '\0') == b.(lastChar := '\0')
  }

  /** Nothing typed yet on this line. */
  predicate Fresh(s: Line) {
    s.left == [] && s.right == [] && s.inputLineLength == 0 && s.current == 0 && !s.escapeMode && s.lastChar != ESC
  }

  lemma TypedChar(cfg: Config, a: Line, b: Line, c: char)
    requires SameButLast(a, b) && !a.escapeMode && a.lastChar != ESC && Printable(c)
    ensures SameButLast(Process(cfg, a, c), TypeChar(cfg, b, c))
    ensures Process(cfg, a, c).lastChar == c && !Process(cfg, a, c).escapeMode
  {
    var x, y := CharInput(cfg, a, c), CharInput(cfg, b, c);
    assert Text(a) == Text(b);
    assert Text(x) == Text(y);
  }

  lemma {:induction false} TypedLine(cfg: Config, a: Line, b: Line, line: string)
    requires SameButLast(a, b) && !a.escapeMode && a.lastChar != ESC && AllPrintable(line)
    ensures var r := Run(cfg, a, line);
            && SameButLast(r, TypeLine(cfg, b, line)) && !r.escapeMode
            && (if line == [] then r == a else Printable(r.lastChar))
  {
    if line != [] {
      var n := |line| - 1;
      TypedLine(cfg, a, b, line[..n]);
      TypedChar(cfg, Run(cfg, a, line[..n]), TypeLine(cfg, b, line[..n]), line[n]);
    }
  }

  lemma EnterSame(cfg: Config, a: Line, b: Line)
    requires SameButLast(a, b)
    ensures SameButLast(Enter(cfg, a), Enter(cfg, b))
  {
    assert Text(a) == Text(b);
    TextAfter(cfg, a);
    TextAfter(cfg, b);
  }

  lemma FreshStays(cfg: Config, s: Line, c: char)
    requires Fresh(s) && IsBreak(c)
    ensures Fresh(Process(cfg, s, c)) && SameButLast(Process(cfg, s, c), s)
  {
    assert Text(s) == [];
  }

  lemma BreakEnters(cfg: Config, a: Line, b: Line, c: char)
    requires SameButLast(a, b) && !a.escapeMode && Printable(a.lastChar) && IsBreak(c)
    ensures Fresh(Process(cfg, a, c)) && SameButLast(Process(cfg, a, c), Enter(cfg, b))
  {
    EnterSame(cfg, a, b);
    assert Text(Enter(cfg, a)) == [];
  }

  lemma RunOne(cfg: Config, s: Line, c: char)
    ensures Run(cfg, s, [c]) == Process(cfg, s, c)
  {
    assert [c][..0] == [] && Run(cfg, s, []) == s;
  }

  lemma {:induction false} FoldConcat<S>(step: (S, char) -> S, s: S, a: string, b: string)
    ensures Fold(step, s, a + b) == Fold(step, Fold(step, s, a), b)
  {
    if b == [] {
      assert a + b == a;
    } else {
      var n := |b| - 1;
      assert (a + b)[..|a| + n] == a + b[..n];
      FoldConcat(step, s, a, b[..n]);
    }
  }

  lemma RunConcat(cfg: Config, s: Line, a: string, b: string)
    ensures Run(cfg, s, a + b) == Run(cfg, Run(cfg, s, a), b)
  {
    FoldConcat(Stepper(cfg), s, a, b);
  }

  /** A terminator enters the line once, whichever it is, and an empty line changes nothing. */
  lemma Terminated(cfg: Config, a: Line, b: Line, brk: string)
    requires SameButLast(a, b) && !a.escapeMode && IsTerminator(brk)
    requires Printable(a.lastChar) || Fresh(a)
    ensures var r := Run(cfg, a, brk); Fresh(r) && SameButLast(r, Enter(cfg, b))
  {
    FirstBreak(cfg, a, b, brk[0]);
    var r := Process(cfg, a, brk[0]);
    RunOne(cfg, a, brk[0]);
    if |brk| == 1 {
      assert brk == [brk[0]];
    } else {
      assert brk == [brk[0]] + [brk[1]];
      RunConcat(cfg, a, [brk[0]], [brk[1]]);
      RunOne(cfg, r, brk[1]);
      FreshStays(cfg, r, brk[1]);
    }
  }

  lemma FirstBreak(cfg: Config, a: Line, b: Line, c: char)
    requires SameButLast(a, b) && !a.escapeMode && IsBreak(c) && (Printable(a.lastChar) || Fresh(a))
    ensures var r := Process(cfg, a, c); Fresh(r) && SameButLast(r, Enter(cfg, b))
  {
    if Fresh(a) {
      FreshStays(cfg, a, c);
      EnterSame(cfg, a, b);
      EnterFresh(cfg, a);
    } else {
      BreakEnters(cfg, a, b, c);
    }
  }

  lemma EnterFresh(cfg: Config, s: Line)
    requires Fresh(s)
    ensures Enter(cfg, s) == s
  {
    assert Text(s) == [];
  }

  lemma {:induction false} RunIsSession(cfg: Config, s: Line, lines: seq<string>, breaks: seq<string>)
    requires Fresh(s) && |lines| == |breaks|
    requires forall k :: 0 <= k < |lines| ==> AllPrintable(lines[k]) && IsTerminator(breaks[k])
    ensures var r := Run(cfg, s, Typed(lines, breaks)); Fresh(r) && SameButLast(r, Session(cfg, s, lines))
    decreases |lines|
  {
    if lines != [] {
      var n := |lines| - 1;
      RunIsSession(cfg, s, lines[..n], breaks[..n]);
      var r, q := Run(cfg, s, Typed(lines[..n], breaks[..n])), Session(cfg, s, lines[..n]);
      RunConcat(cfg, s, Typed(lines[..n], breaks[..n]), lines[n] + breaks[n]);
      RunConcat(cfg, r, lines[n], breaks[n]);
      TypedLine(cfg, r, q, lines[n]);
      Terminated(cfg, Run(cfg, r, lines[n]), TypeLine(cfg, q, lines[n]), breaks[n]);
    }
  }

  /**
   The commands run and the history are the same whichever line break ends each of the lines,
   and they are those of the lines entered one by one.
   */
  lemma BreaksDoNotMatter(cfg: Config, lines: seq<string>, breaks: seq<string>, others: seq<string>)
    requires |lines| == |breaks| == |others|
    requires forall k :: 0 <= k < |lines| ==>
               AllPrintable(lines[k]) && IsTerminator(breaks[k]) && IsTerminator(others[k])
    ensures var r := Run(cfg, START, Typed(lines, breaks));
            var q := Run(cfg, START, Typed(lines, others));
            && r.calls == q.calls == Session(cfg, START, lines).calls
            && r.items == q.items == Session(cfg, START, lines).items
  {
    RunIsSession(cfg, START, lines, breaks);
    RunIsSession(cfg, START, lines, others);
  }
}
