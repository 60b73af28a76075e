/**
 What every received character keeps about the line, the history and the length of the
 shown line, whatever has been typed before.
 */
module LineEditor {
  import opened Terminal
  import opened Commands
  import opened CommandLine
  import Completion
  import opened History
  import opened PackedStrings

  /** A command that was short enough for the buffer, with its two spare characters. */
  predicate GoodLine(cfg: Config, line: string) {
    |line| + 2 <= cfg.cmdMaxSize && AllPrintable(line)
  }

  ghost predicate GoodHistory(cfg: Config, items: seq<string>) {
    && AllItems(items) && Unique(items) && |Pack(items)| <= cfg.historySize
    && forall k :: 0 <= k < |items| ==> GoodLine(cfg, items[k])
  }

  ghost predicate Sound(cfg: Config, s: Line) {
    && GoodLine(cfg, Text(s)) && GoodHistory(cfg, s.items) && s.current <= |s.items|
    && |Text(s)| <= s.inputLineLength && s.inputLineLength + 2 <= cfg.cmdMaxSize
  }

  /** Between two characters the shown line is the text with its live completion. */
  predicate Settled(cfg: Config, s: Line) {
    s.inputLineLength == ShownLength(cfg, s)
  }

  // ----- completions fit the buffer -----

  /** A candidate is the name of a binding, so it fits with one more character. */
  lemma CandidateFits(cfg: Config, s: Line)
    requires GoodConfig(cfg) && Candidates(cfg, s) != []
    ensures var first := Candidates(cfg, s)[0]; |first| + 3 <= cfg.cmdMaxSize && AllPrintable(first) && NoSpace(first)
  {
    Completion.CandidatesAre(Names(cfg.bindings), Text(s));
    var first := Candidates(cfg, s)[0];
    assert first in Names(cfg.bindings);
  }

  lemma SuffixFits(cfg: Config, s: Line)
    requires GoodConfig(cfg) && GoodLine(cfg, Text(s))
    ensures |Text(s)| + |Suffix(cfg, s)| == ShownLength(cfg, s) && AllPrintable(Suffix(cfg, s))
    ensures GoodLine(cfg, CompletedText(cfg, s))
    ensures ShownLength(cfg, s) + 3 <= cfg.cmdMaxSize || ShownLength(cfg, s) == |Text(s)|
  {
    if Completed(cfg, s).candidateCount > 0 {
      CandidateFits(cfg, s);
      Completion.CommonExtends(Names(cfg.bindings), Text(s));
    }
  }

  /** The completed text starts with the common part of the candidates. */
  lemma CompletionShows(cfg: Config, s: Line)
    requires Completed(cfg, s).candidateCount > 0
    ensures var cmd := Completed(cfg, s);
            Text(s) + Suffix(cfg, s) == cmd.firstCandidate[..cmd.autocompletedLen]
  {
    Completion.CommonExtends(Names(cfg.bindings), Text(s));
    var cmd := Completed(cfg, s);
    Completion.PrefixAndRest(Text(s), cmd.firstCandidate, cmd.autocompletedLen);
  }

  // ----- each step -----

  lemma LiveSound(cfg: Config, s: Line)
    requires GoodConfig(cfg) && Sound(cfg, s)
    ensures Sound(cfg, Live(cfg, s)) && Settled(cfg, Live(cfg, s))
  {
    SuffixFits(cfg, s);
    assert Text(Live(cfg, s)) == Text(s);
  }

  lemma WithTextSound(cfg: Config, s: Line, text: string)
    requires GoodLine(cfg, text) && GoodHistory(cfg, s.items) && s.current <= |s.items|
    ensures Sound(cfg, WithText(s, text)) && Text(WithText(s, text)) == text
  {
    assert text + [] == text;
  }

  lemma CompleteSound(cfg: Config, s: Line)
    requires GoodConfig(cfg) && Sound(cfg, s)
    ensures Sound(cfg, AutocompleteRequest(cfg, s))
  {
    SuffixFits(cfg, s);
    WithTextSound(cfg, s, CompletedText(cfg, s));
    WithTextSound(cfg, s, Text(s));
  }

  lemma NavigateSound(cfg: Config, s: Line, up: bool)
    requires GoodConfig(cfg) && Sound(cfg, s)
    ensures Sound(cfg, Navigate(cfg, s, up))
  {
    if !AtHistoryEnd(s, up) {
      var k := Neighbour(s, up);
      WithTextSound(cfg, s.(current := k), Loaded(s, k));
      LiveSound(cfg, Load(s, k));
    }
  }

  lemma MoveText(left: string, right: string)
    ensures right != [] ==> left + [right[0]] + right[1..] == left + right
    ensures left != [] ==> left[..|left| - 1] + ([left[|left| - 1]] + right) == left + right
  {
  }

  lemma EscapedSound(cfg: Config, s: Line, c: char)
    requires GoodConfig(cfg) && Sound(cfg, s)
    ensures Sound(cfg, EscapedInput(cfg, s, c))
  {
    MoveText(s.left, s.right);
    var t := s.(escapeMode := false);
    assert Sound(cfg, t);
    NavigateSound(cfg, t, c == 'A');
  }

  lemma CharSound(cfg: Config, s: Line, c: char)
    requires GoodConfig(cfg) && Sound(cfg, s) && Settled(cfg, s) && Printable(c)
    ensures Sound(cfg, CharInput(cfg, s, c))
  {
    SuffixFits(cfg, s);
    PrintableParts(s.left, s.right);
    PrintableParts(s.left + [c], s.right);
    assert Text(CharInput(cfg, s, c)) == if |Text(s)| + 2 >= cfg.cmdMaxSize then Text(s) else s.left + [c] + s.right;
  }

  lemma PrintableParts(a: string, b: string)
    ensures AllPrintable(a + b) <==> AllPrintable(a) && AllPrintable(b)
  {
    if AllPrintable(a + b) {
      assert forall i :: 0 <= i < |a| ==> a[i] == (a + b)[i];
      assert forall i :: 0 <= i < |b| ==> b[i] == (a + b)[|a| + i];
    }
  }

  lemma EraseSound(cfg: Config, s: Line)
    requires Sound(cfg, s)
    ensures Sound(cfg, Erase(s))
  {
    if s.left != [] {
      var n := |s.left| - 1;
      assert Text(Erase(s)) == s.left[..n] + s.right;
      PrintableParts(s.left, s.right);
      PrintableParts(s.left[..n], s.right);
    }
  }

  lemma EnteredSound(cfg: Config, items: seq<string>, line: string)
    requires GoodHistory(cfg, items) && GoodLine(cfg, line) && line != []
    ensures GoodHistory(cfg, Entered(items, line, cfg.historySize))
  {
    EnteredIsMru(items, line, cfg.historySize);
    WithoutMembers(items, line);
    var w, r := Without(items, line), Entered(items, line, cfg.historySize);
    forall k | 0 <= k < |r| ensures GoodLine(cfg, r[k]) {
      if cfg.historySize < |line| + 1 {
      } else if k > 0 {
        assert r[k] == r[1..][k - 1] == w[k - 1];
        assert w[k - 1] in w;
      }
    }
  }

  lemma EnterSound(cfg: Config, s: Line)
    requires GoodConfig(cfg) && Sound(cfg, s)
    ensures Sound(cfg, Enter(cfg, s))
  {
    var a := AutocompleteRequest(cfg, s);
    CompleteSound(cfg, s);
    if !AllSpaces(Text(a)) {
      EnteredSound(cfg, a.items, Text(a));
    }
  }

  lemma ControlSound(cfg: Config, s: Line, c: char)
    requires GoodConfig(cfg) && Sound(cfg, s)
    ensures Sound(cfg, ControlInput(cfg, s, c))
  {
    EnterSound(cfg, s);
    CompleteSound(cfg, s);
    EraseSound(cfg, s);
  }

  lemma HandleSound(cfg: Config, s: Line, c: char)
    requires GoodConfig(cfg) && Sound(cfg, s) && Settled(cfg, s)
    ensures Sound(cfg, Handle(cfg, s, c))
  {
    EscapedSound(cfg, s, c);
    ControlSound(cfg, s, c);
    if Printable(c) {
      CharSound(cfg, s, c);
    }
  }

  lemma ProcessSound(cfg: Config, s: Line, c: char)
    requires GoodConfig(cfg) && Sound(cfg, s) && Settled(cfg, s)
    ensures Sound(cfg, Process(cfg, s, c)) && Settled(cfg, Process(cfg, s, c))
  {
    var h := Handle(cfg, s, c);
    HandleSound(cfg, s, c);
    LiveSound(cfg, h);
    assert Text(Process(cfg, s, c)) == Text(Live(cfg, h));
  }

  lemma StartSound(cfg: Config)
    requires GoodConfig(cfg)
    ensures Sound(cfg, START) && Settled(cfg, START)
  {
  }

  /**
   Over every keystroke sequence the text leaves two characters of the buffer free, the
   history position exists, and every command of the history is unique and short enough to
   be loaded.
   */
  lemma {:induction false} RunSound(cfg: Config, input: string)
    requires GoodConfig(cfg)
    ensures Sound(cfg, Run(cfg, START, input)) && Settled(cfg, Run(cfg, START, input))
  {
    if input == [] {
      StartSound(cfg);
    } else {
      var before := Run(cfg, START, input[..|input| - 1]);
      RunSound(cfg, input[..|input| - 1]);
      ProcessSound(cfg, before, input[|input| - 1]);
    }
  }

  // ----- what undoes what -----

  /** A typed character stands at the cursor, and erasing takes just that character away again. */
  lemma EraseUndoesTyping(cfg: Config, s: Line, c: char)
    requires !Full(cfg, s)
    ensures var t, k := CharInput(cfg, s, c), |s.left|;
            && Text(t) == Text(s)[..k] + [c] + Text(s)[k..]
            && Erase(t).left == s.left && Erase(t).right == s.right
  {
  }

  lemma MovesCancel(s: Line)
    ensures s.right != [] ==> MoveLeft(MoveRight(s)) == s
    ensures s.left != [] ==> MoveRight(MoveLeft(s)) == s
  {
    if s.right != [] {
      assert (s.left + [s.right[0]])[..|s.left|] == s.left && [s.right[0]] + s.right[1..] == s.right;
    }
    if s.left != [] {
      assert ([s.left[|s.left| - 1]] + s.right)[1..] == s.right;
    }
  }

  /** The line after the up key has been pressed a number of times. */
  function Ups(cfg: Config, s: Line, n: nat): Line {
    if n == 0 then s else Navigate(cfg, Ups(cfg, s, n - 1), true)
  }

  /** Pressing up n times shows the n-th most recent command, and the oldest one when there are fewer. */
  lemma {:induction false} UpsRecall(cfg: Config, s: Line, n: nat)
    requires s.current == 0 && n > 0 && s.items != []
    ensures var r, k := Ups(cfg, s, n), if n <= |s.items| then n else |s.items|;
            Text(r) == s.items[k - 1] && r.current == k && r.items == s.items
  {
    hide Navigate;
    var before := Ups(cfg, s, n - 1);
    if n > 1 {
      UpsRecall(cfg, s, n - 1);
    }
    UpOnce(cfg, before);
  }

  /** One press of the up key. */
  lemma UpOnce(cfg: Config, s: Line)
    requires s.items != [] && s.current <= |s.items|
    ensures var r, k := Navigate(cfg, s, true), if s.current < |s.items| then s.current + 1 else s.current;
            r.current == k && r.items == s.items
                && (if s.current < |s.items| then Text(r) == s.items[k - 1] else r == s)
  {
    hide ShownLength;
    if s.current < |s.items| {
      assert s.items[s.current] + [] == s.items[s.current];
    }
  }

  /** Down undoes up: the command shown before is shown again. */
  lemma DownUndoesUp(cfg: Config, s: Line)
    requires s.current < |s.items|
    ensures var r := Navigate(cfg, Navigate(cfg, s, true), false);
            r.current == s.current && Text(r) == Loaded(s, s.current)
  {
    hide ShownLength;
    var item := Loaded(s, s.current);
    assert item + [] == item;
  }

  /** The command just entered is the first one that the up key brings back. */
  lemma UpRecallsEntered(cfg: Config, s: Line)
    requires !AllSpaces(Text(AutocompleteRequest(cfg, s))) && |Text(AutocompleteRequest(cfg, s))| < cfg.historySize
    ensures Text(Navigate(cfg, Enter(cfg, s), true)) == Text(AutocompleteRequest(cfg, s))
  {
    hide AutocompleteRequest, Navigate;
    var e := Enter(cfg, s);
    UpsRecall(cfg, e, 1);
    assert Ups(cfg, e, 0) == e;
  }
}
