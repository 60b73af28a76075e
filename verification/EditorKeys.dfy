/**
 What the keys do: laws of whole inputs, given by the characters that a terminal sends, about
 the text, the place of the cursor in it, the history and the calls.
 */
module EditorKeys {
  import opened Common
  import opened Terminal
  import opened Commands
  import opened CommandLine
  import opened LineEditor
  import opened EnteredLines
  import Completion
  import History

  /** A line between two keys. */
  ghost predicate Editing(cfg: Config, s: Line) {
    GoodConfig(cfg) && Sound(cfg, s) && Settled(cfg, s) && !s.escapeMode
  }

  /** The text divided at the cursor. */
  predicate Shows(s: Line, text: string, cursor: nat) {
    cursor <= |text| && s.left == text[..cursor] && s.right == text[cursor..]
  }

  /** History and calls are as before. */
  predicate SamePast(s: Line, r: Line) {
    r.items == s.items && r.calls == s.calls
  }

  function Times(keys: string, n: nat): string {
    if n == 0 then [] else Times(keys, n - 1) + keys
  }

  const UP: string := [27 as char, '[', 'A']
  const DOWN: string := [27 as char, '[', 'B']
  const RIGHT: string := [27 as char, '[', 'C']
  const LEFT: string := [27 as char, '[', 'D']

  /** What may stand between the bracket of a sequence and its final character. */
  predicate Parameters(params: string) {
    forall i :: 0 <= i < |params| ==> (params[i] as int) < 64 || (params[i] as int) > 126
  }

  function Sequence(params: string, c: char): string {
    [27 as char, '['] + params + [c]
  }

  // ----- one character -----

  /** The shown length depends on the text alone. */
  lemma SettledAs(cfg: Config, s: Line, t: Line)
    requires Text(s) == Text(t) && Settled(cfg, s) && t.inputLineLength == s.inputLineLength
    ensures Live(cfg, t) == t
  {
  }

  lemma EditingAfter(cfg: Config, s: Line, c: char)
    requires GoodConfig(cfg) && Sound(cfg, s) && Settled(cfg, s)
    ensures Sound(cfg, Process(cfg, s, c)) && Settled(cfg, Process(cfg, s, c))
  {
    ProcessSound(cfg, s, c);
  }

  lemma OpensSequence(cfg: Config, s: Line)
    requires Editing(cfg, s)
    ensures Run(cfg, s, [27 as char, '[']) == s.(lastChar := '[', escapeMode := true)
  {
    var t := s.(lastChar := 27 as char);
    RunOne(cfg, s, 27 as char);
    SettledAs(cfg, s, s);
    assert Process(cfg, s, 27 as char) == t;
    RunOne(cfg, t, '[');
    SettledAs(cfg, s, t.(escapeMode := true));
    assert [27 as char, '['] == [27 as char] + ['['];
    RunConcat(cfg, s, [27 as char], ['[']);
  }

  lemma {:induction false} PassesParameters(cfg: Config, s: Line, params: string)
    requires GoodConfig(cfg) && Sound(cfg, s) && Settled(cfg, s) && s.escapeMode && Parameters(params)
    ensures exists c: char :: Run(cfg, s, params) == s.(lastChar := c)
  {
    if params == [] {
      assert s.(lastChar := s.lastChar) == s;
    } else {
      var n := |params| - 1;
      PassesParameters(cfg, s, params[..n]);
      var c: char :| Run(cfg, s, params[..n]) == s.(lastChar := c);
      SettledAs(cfg, s, s.(lastChar := c));
      assert Run(cfg, s, params) == Process(cfg, s.(lastChar := c), params[n]) == s.(lastChar := params[n]);
    }
  }

  /** A sequence has the effect of its final character alone. */
  lemma SequenceActs(cfg: Config, s: Line, params: string, c: char)
    requires Editing(cfg, s) && Parameters(params)
    ensures exists d: char ::
              Run(cfg, s, Sequence(params, c)) == Process(cfg, s.(lastChar := d, escapeMode := true), c)
  {
    var t := s.(lastChar := '[', escapeMode := true);
    OpensSequence(cfg, s);
    assert Text(t) == Text(s);
    PassesParameters(cfg, t, params);
    var d: char :| Run(cfg, t, params) == t.(lastChar := d);
    RunConcat(cfg, s, [27 as char, '['], params);
    RunConcat(cfg, s, [27 as char, '['] + params, [c]);
    RunOne(cfg, t.(lastChar := d), c);
  }

  // ----- the cursor keys -----

  /** A line within a sequence. */
  ghost predicate Within(cfg: Config, t: Line) {
    GoodConfig(cfg) && Sound(cfg, t) && Settled(cfg, t) && t.escapeMode
  }

  lemma StartsFinal(cfg: Config, s: Line, d: char)
    requires Editing(cfg, s)
    ensures Within(cfg, s.(lastChar := d, escapeMode := true))
  {
    assert Text(s.(lastChar := d, escapeMode := true)) == Text(s);
  }

  lemma FinalLeft(cfg: Config, t: Line)
    requires Within(cfg, t)
    ensures var r := Process(cfg, t, 'D');
            && Editing(cfg, r) && SamePast(t, r) && r.current == t.current
            && Shows(r, Text(t), if t.left == [] then 0 else |t.left| - 1)
  {
    hide Sound, Settled, GoodConfig, ShownLength;
    ProcessSound(cfg, t, 'D');
  }

  lemma FinalRight(cfg: Config, t: Line)
    requires Within(cfg, t)
    ensures var r := Process(cfg, t, 'C');
            && Editing(cfg, r) && SamePast(t, r) && r.current == t.current
            && Shows(r, Text(t), if t.right == [] then |t.left| else |t.left| + 1)
  {
    hide Sound, Settled, GoodConfig, ShownLength;
    ProcessSound(cfg, t, 'C');
    if t.right != [] {
      assert (t.left + t.right)[..|t.left| + 1] == t.left + [t.right[0]];
    }
  }

  lemma FinalUp(cfg: Config, t: Line)
    requires Within(cfg, t)
    ensures var r := Process(cfg, t, 'A');
            && Editing(cfg, r) && SamePast(t, r)
            && (if t.current < |t.items| then
                  r.current == t.current + 1 && Shows(r, t.items[t.current], |t.items[t.current]|)
                else r.current == t.current && Shows(r, Text(t), |t.left|))
  {
    hide Settled, GoodConfig, GoodLine, GoodHistory, ShownLength;
    ProcessSound(cfg, t, 'A');
  }

  lemma FinalDown(cfg: Config, t: Line)
    requires Within(cfg, t)
    ensures var r := Process(cfg, t, 'B');
            && Editing(cfg, r) && SamePast(t, r)
            && (if t.current > 1 then
                  r.current == t.current - 1 && Shows(r, t.items[t.current - 2], |t.items[t.current - 2]|)
                else if t.current == 1 then r.current == 0 && Shows(r, [], 0)
                else r.current == 0 && Shows(r, Text(t), |t.left|))
  {
    hide Settled, GoodConfig, GoodLine, GoodHistory, ShownLength;
    ProcessSound(cfg, t, 'B');
  }

  /** The left key moves the cursor before the character on its left, if there is one. */
  lemma LeftKey(cfg: Config, s: Line, params: string)
    requires Editing(cfg, s) && Parameters(params)
    ensures var r := Run(cfg, s, Sequence(params, 'D'));
            && Editing(cfg, r) && SamePast(s, r) && r.current == s.current
            && Shows(r, Text(s), if s.left == [] then 0 else |s.left| - 1)
  {
    hide Run, Sequence, Sound, Settled, GoodConfig, ShownLength, Process;
    SequenceActs(cfg, s, params, 'D');
    var d: char :| Run(cfg, s, Sequence(params, 'D')) == Process(cfg, s.(lastChar := d, escapeMode := true), 'D');
    StartsFinal(cfg, s, d);
    FinalLeft(cfg, s.(lastChar := d, escapeMode := true));
  }

  /** The right key moves the cursor behind the character on its right, if there is one. */
  lemma RightKey(cfg: Config, s: Line, params: string)
    requires Editing(cfg, s) && Parameters(params)
    ensures var r := Run(cfg, s, Sequence(params, 'C'));
            && Editing(cfg, r) && SamePast(s, r) && r.current == s.current
            && Shows(r, Text(s), if s.right == [] then |s.left| else |s.left| + 1)
  {
    hide Run, Sequence, Sound, Settled, GoodConfig, ShownLength, Process;
    SequenceActs(cfg, s, params, 'C');
    var d: char :| Run(cfg, s, Sequence(params, 'C')) == Process(cfg, s.(lastChar := d, escapeMode := true), 'C');
    StartsFinal(cfg, s, d);
    FinalRight(cfg, s.(lastChar := d, escapeMode := true));
  }

  /** The up key shows the next older command with the cursor at its end, if there is one. */
  lemma UpKey(cfg: Config, s: Line, params: string)
    requires Editing(cfg, s) && Parameters(params)
    ensures var r := Run(cfg, s, Sequence(params, 'A'));
            && Editing(cfg, r) && SamePast(s, r)
            && (if s.current < |s.items| then
                  r.current == s.current + 1 && Shows(r, s.items[s.current], |s.items[s.current]|)
                else r.current == s.current && Shows(r, Text(s), |s.left|))
  {
    hide Run, Sequence, Sound, Settled, GoodConfig, ShownLength, Process;
    SequenceActs(cfg, s, params, 'A');
    var d: char :| Run(cfg, s, Sequence(params, 'A')) == Process(cfg, s.(lastChar := d, escapeMode := true), 'A');
    StartsFinal(cfg, s, d);
    FinalUp(cfg, s.(lastChar := d, escapeMode := true));
  }

  /** The down key shows the next newer command, and behind the newest one an empty line. */
  lemma DownKey(cfg: Config, s: Line, params: string)
    requires Editing(cfg, s) && Parameters(params)
    ensures var r := Run(cfg, s, Sequence(params, 'B'));
            && Editing(cfg, r) && SamePast(s, r)
            && (if s.current > 1 then
                  r.current == s.current - 1 && Shows(r, s.items[s.current - 2], |s.items[s.current - 2]|)
                else if s.current == 1 then r.current == 0 && Shows(r, [], 0)
                else r.current == 0 && Shows(r, Text(s), |s.left|))
  {
    hide Run, Sequence, Sound, Settled, GoodConfig, ShownLength, Process;
    SequenceActs(cfg, s, params, 'B');
    var d: char :| Run(cfg, s, Sequence(params, 'B')) == Process(cfg, s.(lastChar := d, escapeMode := true), 'B');
    StartsFinal(cfg, s, d);
    FinalDown(cfg, s.(lastChar := d, escapeMode := true));
  }

  /** Any other sequence changes nothing. */
  lemma OtherSequence(cfg: Config, s: Line, params: string, c: char)
    requires Editing(cfg, s) && Parameters(params) && 64 <= c as int <= 126 && c !in {'A', 'B', 'C', 'D'}
    ensures var r := Run(cfg, s, Sequence(params, c));
            Editing(cfg, r) && SamePast(s, r) && r.current == s.current && Shows(r, Text(s), |s.left|)
  {
    SequenceActs(cfg, s, params, c);
    var d: char :| Run(cfg, s, Sequence(params, c)) == Process(cfg, s.(lastChar := d, escapeMode := true), c);
    var t := s.(lastChar := d, escapeMode := true);
    assert Text(t) == Text(s);
    ProcessSound(cfg, t, c);
  }

  lemma OneMore(cfg: Config, s: Line, c: char, n: nat)
    requires n > 0
    ensures var key := [27 as char, '[', c];
            Run(cfg, s, Times(key, n)) == Run(cfg, Run(cfg, s, Times(key, n - 1)), Sequence([], c))
  {
    hide Run;
    var key := [27 as char, '[', c];
    assert Sequence([], c) == key;
    RunConcat(cfg, s, Times(key, n - 1), key);
  }

  lemma NoneYet(cfg: Config, s: Line, key: string)
    ensures Run(cfg, s, Times(key, 0)) == s && Run(cfg, s, []) == s && Shows(s, Text(s), |s.left|)
  {
  }

  lemma RunLast(cfg: Config, s: Line, input: string)
    requires input != []
    ensures Run(cfg, s, input) == Process(cfg, Run(cfg, s, input[..|input| - 1]), input[|input| - 1])
  {
  }

  /** Pressing up n times shows the command n positions further back, or the oldest one. */
  lemma {:induction false} UpKeys(cfg: Config, s: Line, n: nat)
    requires Editing(cfg, s)
    ensures var r, k := Run(cfg, s, Times(UP, n)), Min(s.current + n, |s.items|);
            && Editing(cfg, r) && SamePast(s, r) && r.current == k
            && (if k == s.current then Shows(r, Text(s), |s.left|)
                else Shows(r, s.items[k - 1], |s.items[k - 1]|))
  {
    hide Run, Sequence, Sound, Settled, GoodConfig;
    EditingBounds(cfg, s);
    if n > 0 {
      UpKeys(cfg, s, n - 1);
      OneMore(cfg, s, 'A', n);
      UpKey(cfg, Run(cfg, s, Times(UP, n - 1)), []);
    } else {
      NoneYet(cfg, s, UP);
    }
  }

  /** Pressing down n times shows the command n positions nearer, or an empty line. */
  lemma {:induction false} DownKeys(cfg: Config, s: Line, n: nat)
    requires Editing(cfg, s)
    ensures var r, k := Run(cfg, s, Times(DOWN, n)), if n <= s.current then s.current - n else 0;
            && Editing(cfg, r) && SamePast(s, r) && r.current == k
            && (if k == s.current then Shows(r, Text(s), |s.left|)
                else if k == 0 then Shows(r, [], 0)
                else Shows(r, s.items[k - 1], |s.items[k - 1]|))
  {
    hide Run, Sequence, Sound, Settled, GoodConfig;
    if n > 0 {
      DownKeys(cfg, s, n - 1);
      OneMore(cfg, s, 'B', n);
      DownKey(cfg, Run(cfg, s, Times(DOWN, n - 1)), []);
    } else {
      NoneYet(cfg, s, DOWN);
    }
  }

  /** Pressing left n times moves the cursor n characters to the left, or to the start. */
  lemma {:induction false} LeftKeys(cfg: Config, s: Line, n: nat)
    requires Editing(cfg, s)
    ensures var r := Run(cfg, s, Times(LEFT, n));
            && Editing(cfg, r) && SamePast(s, r) && r.current == s.current
            && Shows(r, Text(s), if n <= |s.left| then |s.left| - n else 0)
  {
    hide Run, Sequence, Sound, Settled, GoodConfig;
    if n > 0 {
      LeftKeys(cfg, s, n - 1);
      OneMore(cfg, s, 'D', n);
      LeftKey(cfg, Run(cfg, s, Times(LEFT, n - 1)), []);
    } else {
      NoneYet(cfg, s, LEFT);
    }
  }

  /** Pressing right n times moves the cursor n characters to the right, or to the end. */
  lemma {:induction false} RightKeys(cfg: Config, s: Line, n: nat)
    requires Editing(cfg, s)
    ensures var r := Run(cfg, s, Times(RIGHT, n));
            && Editing(cfg, r) && SamePast(s, r) && r.current == s.current
            && Shows(r, Text(s), Min(|s.left| + n, |Text(s)|))
  {
    hide Run, Sequence, Sound, Settled, GoodConfig;
    if n > 0 {
      RightKeys(cfg, s, n - 1);
      OneMore(cfg, s, 'C', n);
      RightKey(cfg, Run(cfg, s, Times(RIGHT, n - 1)), []);
    } else {
      NoneYet(cfg, s, RIGHT);
    }
  }

  // ----- erasing and typing -----

  /** Backspace and delete, in any mixture, each remove the character before the cursor. */
  lemma {:induction false} EraseKeys(cfg: Config, s: Line, keys: string)
    requires Editing(cfg, s) && forall i :: 0 <= i < |keys| ==> keys[i] as int in {8, 127}
    ensures var r := Run(cfg, s, keys);
            && Editing(cfg, r) && SamePast(s, r) && r.current == s.current
            && r.left == s.left[..if |keys| <= |s.left| then |s.left| - |keys| else 0] && r.right == s.right
  {
    hide Run, Process, Editing;
    if keys == [] {
      NoneYet(cfg, s, []);
    } else {
      var n := |keys| - 1;
      EraseKeys(cfg, s, keys[..n]);
      RunLast(cfg, s, keys);
      EraseKey(cfg, Run(cfg, s, keys[..n]), keys[n]);
    }
  }

  lemma EraseKey(cfg: Config, s: Line, c: char)
    requires Editing(cfg, s) && c as int in {8, 127}
    ensures var r := Process(cfg, s, c);
            && Editing(cfg, r) && SamePast(s, r) && r.current == s.current
            && r.left == s.left[..if s.left == [] then 0 else |s.left| - 1] && r.right == s.right
  {
    hide Sound, Settled, GoodConfig, ShownLength;
    ProcessSound(cfg, s, c);
  }

  predicate Displayable(text: string) {
    forall i :: 0 <= i < |text| ==> 32 <= text[i] as int <= 126
  }

  /** Typed characters are inserted before the cursor one after the other, as long as the buffer keeps two free. */
  lemma {:induction false} TypedKeys(cfg: Config, s: Line, text: string)
    requires Editing(cfg, s) && Displayable(text)
    requires !(text != [] && s.lastChar == 27 as char && text[0] == '[')
    ensures var r := Run(cfg, s, text);
            && Editing(cfg, r) && SamePast(s, r) && r.current == s.current
            && r.left == s.left + text[..Min(|text|, cfg.cmdMaxSize - 2 - |Text(s)|)] && r.right == s.right
            && r.lastChar == if text == [] then s.lastChar else text[|text| - 1]
  {
    hide Run, Process, Editing;
    EditingBounds(cfg, s);
    if text == [] {
      NoneYet(cfg, s, []);
    } else {
      var n := |text| - 1;
      TypedKeys(cfg, s, text[..n]);
      RunLast(cfg, s, text);
      TypedKey(cfg, Run(cfg, s, text[..n]), text[n]);
      TypedMore(s.left, text, n, cfg.cmdMaxSize - 2 - |Text(s)|);
    }
  }

  lemma TypedMore(left: string, text: string, n: nat, room: nat)
    requires n == |text| - 1
    ensures left + text[..n][..Min(n, room)] + (if n < room then [text[n]] else []) == left + text[..Min(n + 1, room)]
  {
  }

  lemma EditingBounds(cfg: Config, s: Line)
    requires Editing(cfg, s)
    ensures s.current <= |s.items| && |Text(s)| + 2 <= cfg.cmdMaxSize
  {
  }

  lemma TypedKey(cfg: Config, s: Line, c: char)
    requires Editing(cfg, s) && 32 <= c as int <= 126 && !(s.lastChar == 27 as char && c == '[')
    ensures var r := Process(cfg, s, c);
            && Editing(cfg, r) && SamePast(s, r) && r.current == s.current && r.lastChar == c
            && r.left == (if |Text(s)| + 2 < cfg.cmdMaxSize then s.left + [c] else s.left) && r.right == s.right
  {
    ProcessSound(cfg, s, c);
  }

  /** Other characters outside a sequence change nothing. */
  lemma OtherKey(cfg: Config, s: Line, c: char)
    requires Editing(cfg, s) && ((c as int) < 32 || (c as int) > 127) && c as int !in {8, 9, 10, 13}
    ensures var r := Run(cfg, s, [c]);
            Editing(cfg, r) && SamePast(s, r) && r.current == s.current && Shows(r, Text(s), |s.left|)
  {
    RunOne(cfg, s, c);
    ProcessSound(cfg, s, c);
  }

  // ----- tab and enter -----

  /** Binding `k` has a name that the typed text abbreviates. */
  predicate Extends(cfg: Config, s: Line, k: nat) {
    k < |cfg.bindings| && Text(s) != [] && Text(s) <= cfg.bindings[k].name
  }

  /**
   The completion of the line: with one binding that extends it, its name and a space; with
   several, the longest text that all their names start with; else the line itself.
   */
  ghost predicate CompletesTo(cfg: Config, s: Line, text: string) {
    if forall k: nat :: !Extends(cfg, s, k) then text == Text(s)
    else if exists k: nat :: Extends(cfg, s, k) && forall j: nat :: Extends(cfg, s, j) ==> j == k then
      exists k: nat :: Extends(cfg, s, k) && text == cfg.bindings[k].name + [' ']
    else forall p: string :: CommonToAll(cfg, Text(s), p) <==> p <= text
  }

  lemma CompletedTo(cfg: Config, s: Line)
    requires GoodConfig(cfg)
    ensures CompletesTo(cfg, s, Text(AutocompleteRequest(cfg, s)))
    ensures (exists k: nat :: Extends(cfg, s, k)) <==> Completed(cfg, s).candidateCount > 0
    ensures (exists k: nat :: Extends(cfg, s, k)) ==> AutocompleteRequest(cfg, s).right == []
  {
    hide Extends, CompletesTo, AutocompleteRequest;
    if k: nat :| Extends(cfg, s, k) {
      if forall j: nat :: Extends(cfg, s, j) ==> j == k {
        OneTo(cfg, s, k);
      } else {
        SeveralTo(cfg, s, k);
      }
    } else {
      NoneTo(cfg, s);
    }
  }

  lemma NoneTo(cfg: Config, s: Line)
    requires forall k: nat :: !Extends(cfg, s, k)
    ensures Completed(cfg, s).candidateCount == 0 && AutocompleteRequest(cfg, s) == s && CompletesTo(cfg, s, Text(s))
  {
    hide Extends;
    CandidatesExtend(cfg, s);
  }

  lemma OneTo(cfg: Config, s: Line, k: nat)
    requires Extends(cfg, s, k) && forall j: nat :: Extends(cfg, s, j) ==> j == k
    ensures Completed(cfg, s).candidateCount > 0 && AutocompleteRequest(cfg, s).right == []
    ensures CompletesTo(cfg, s, Text(AutocompleteRequest(cfg, s)))
  {
    hide Extends, Completed;
    CandidatesExtend(cfg, s);
    OneExtends(cfg, s, k);
  }

  lemma SeveralTo(cfg: Config, s: Line, k: nat)
    requires Extends(cfg, s, k) && exists j: nat :: Extends(cfg, s, j) && j != k
    ensures Completed(cfg, s).candidateCount > 0 && AutocompleteRequest(cfg, s).right == []
    ensures CompletesTo(cfg, s, Text(AutocompleteRequest(cfg, s)))
  {
    hide Extends, Completed, CommonToAll;
    SeveralExtend(cfg, s, k);
  }

  lemma CandidatesExtend(cfg: Config, s: Line)
    ensures (exists k: nat :: Extends(cfg, s, k)) <==> Completed(cfg, s).candidateCount > 0
  {
    hide Completion.CommonLength, Completion.Candidates;
    var names, cands := Names(cfg.bindings), Candidates(cfg, s);
    Completion.CandidatesAre(names, Text(s));
    if k: nat :| Extends(cfg, s, k) {
      assert names[k] in cands;
    }
    if Completed(cfg, s).candidateCount > 0 {
      assert cands[0] in cands;
      var k :| 0 <= k < |names| && names[k] == cands[0];
      assert Extends(cfg, s, k);
    }
  }

  lemma OneExtends(cfg: Config, s: Line, k: nat)
    requires Extends(cfg, s, k) && forall j: nat :: Extends(cfg, s, j) ==> j == k
    ensures Text(AutocompleteRequest(cfg, s)) == cfg.bindings[k].name + [' ']
  {
    var names, name := Names(cfg.bindings), cfg.bindings[k].name;
    assert forall i: nat :: i < |names| && Text(s) <= names[i] ==> Extends(cfg, s, i);
    OneCandidate(names, Text(s), k);
    Completion.PrefixAndRest(Text(s), name, |name|);
    TextAfter(cfg, s);
    assert Text(s) + Suffix(cfg, s) == name[..|name|] == name;
  }

  lemma SeveralExtend(cfg: Config, s: Line, k: nat)
    requires Extends(cfg, s, k) && exists j: nat :: Extends(cfg, s, j) && j != k
    ensures Completed(cfg, s).candidateCount > 1
    ensures forall p: string :: CommonToAll(cfg, Text(s), p) <==> p <= Text(AutocompleteRequest(cfg, s))
  {
    hide Completion.CommonLength;
    var j: nat :| Extends(cfg, s, j) && j != k;
    TwoCandidates(Names(cfg.bindings), Text(s), if j < k then j else k, if j < k then k else j);
    TextAfter(cfg, s);
    SuffixTells(cfg, s);
    forall p: string
      ensures CommonToAll(cfg, Text(s), p) <==> p <= Text(AutocompleteRequest(cfg, s))
    {
      CompletionIsLongestCommon(cfg, s, p);
    }
  }

  /** Without a completion in place there is nothing left to complete. */
  lemma SuffixTells(cfg: Config, s: Line)
    requires Completed(cfg, s).candidateCount > 1
    ensures Text(s) + Suffix(cfg, s) == if Completes(cfg, s) then CompletedText(cfg, s) else Text(s)
  {
    hide Completion.CommonLength, Completion.Candidates;
    Completion.CommonExtends(Names(cfg.bindings), Text(s));
    assert Text(s) + Suffix(cfg, s) + [] == Text(s) + Suffix(cfg, s);
    if !Completes(cfg, s) {
      assert ShownLength(cfg, s) == Completed(cfg, s).autocompletedLen == |Text(s)|;
      Completion.CommonIsLongest(Candidates(cfg, s));
      assert Suffix(cfg, s) == [];
      assert Text(s) + [] == Text(s);
    }
  }

  lemma {:induction false} TwoCandidates(names: seq<string>, line: string, j: nat, k: nat)
    requires j < k < |names| && line <= names[j] && line <= names[k]
    ensures |Completion.Candidates(names, line)| > 1
  {
    var n := |names| - 1;
    if k < n {
      TwoCandidates(names[..n], line, j, k);
    } else {
      SomeCandidate(names[..n], line, j);
    }
  }

  lemma SomeCandidate(names: seq<string>, line: string, j: nat)
    requires j < |names| && line <= names[j]
    ensures Completion.Candidates(names, line) != []
  {
    Completion.CandidatesAre(names, line);
    assert names[j] in Completion.Candidates(names, line);
  }

  /** Tab puts the completion into the line, or does nothing when no binding extends it. */
  lemma TabKey(cfg: Config, s: Line)
    requires Editing(cfg, s)
    ensures var r := Run(cfg, s, [9 as char]);
            && Editing(cfg, r) && SamePast(s, r) && r.current == s.current
            && (if exists k: nat :: Extends(cfg, s, k) then CompletesTo(cfg, s, r.left) && r.right == []
                else Shows(r, Text(s), |s.left|))
  {
    hide Completes, CompletedText, Sound, Settled, GoodConfig, ShownLength, Completed, CompletesTo;
    RunOne(cfg, s, 9 as char);
    ProcessSound(cfg, s, 9 as char);
    CompletedTo(cfg, s);
    var a := AutocompleteRequest(cfg, s);
    if exists k: nat :: Extends(cfg, s, k) {
      assert a.left + [] == a.left;
    }
  }

  /**
   Enter, sent as a CR or a LF that is not the second half of a break, runs the completed line
   and puts it into the history unless it is blank, and a new line begins.
   */
  lemma EnterKey(cfg: Config, s: Line, c: char)
    requires Editing(cfg, s) && c as int in {10, 13} && !(s.lastChar as int in {10, 13} && s.lastChar != c)
    ensures var r := Run(cfg, s, [c]);
            && Editing(cfg, r) && r.left == [] && r.right == [] && r.current == 0
            && exists text: string ::
                 && CompletesTo(cfg, s, text)
                 && (if forall i :: 0 <= i < |text| ==> text[i] == ' ' then SamePast(s, r)
                     else
                       && r.calls == s.calls + [Dispatch(cfg.bindings, cfg.onCommand, text)]
                       && r.items == History.Entered(s.items, text, cfg.historySize))
  {
    hide Sound, Settled, ShownLength, CompletesTo, AutocompleteRequest, Dispatch, History.Entered;
    RunOne(cfg, s, c);
    ProcessSound(cfg, s, c);
    CompletedTo(cfg, s);
    CompletionKeepsPast(cfg, s);
    var text := Text(AutocompleteRequest(cfg, s));
    assert CompletesTo(cfg, s, text);
  }

  lemma CompletionKeepsPast(cfg: Config, s: Line)
    ensures SamePast(s, AutocompleteRequest(cfg, s)) && AutocompleteRequest(cfg, s).escapeMode == s.escapeMode
  {
  }

  /** The second half of a line break changes nothing. */
  lemma SecondHalf(cfg: Config, s: Line)
    requires Editing(cfg, s) && s.lastChar as int in {10, 13}
    ensures var r := Run(cfg, s, [if s.lastChar as int == 10 then 13 as char else 10 as char]);
            Editing(cfg, r) && SamePast(s, r) && r.current == s.current && Shows(r, Text(s), |s.left|)
  {
    var c := if s.lastChar as int == 10 then 13 as char else 10 as char;
    RunOne(cfg, s, c);
    ProcessSound(cfg, s, c);
  }
}
