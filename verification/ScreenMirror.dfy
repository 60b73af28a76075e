/** Over every run, the terminal shows the line that the command line is editing. */
module ScreenMirror {
  import opened Terminal
  import opened ScreenRow
  import opened Commands
  import opened CommandLine
  import opened CommandOutput
  import opened LineEditor
  import Completion

  type Screen = t: Term | Terminal.Valid(t) witness Term(" ", 0, 0, Ground)

  // ----- the screen shows the line -----

  predicate Wide(cfg: Config, t: Term) {
    |cfg.invitation| + cfg.cmdMaxSize < |t.row| + 2
  }

  /** Whatever a command prints, it ends at the start of a blank row. */
  ghost predicate RepliesEndBlank(cfg: Config) {
    forall calls: seq<Call>, t: Screen :: AtBlank(t) ==> AtBlank(Feed(t, cfg.reply(calls)))
  }

  /**
   The row is exactly the invitation, the text, its live completion and blanks, and the
   cursor stands behind the text left of it.
   */
  predicate Mirror(cfg: Config, s: Line, t: Term) {
    var shown := cfg.invitation + Text(s) + Suffix(cfg, s);
    && t.mode == Ground && |shown| < |t.row|
    && t.row == shown + Spaces(|t.row| - |shown|)
    && t.col == |cfg.invitation| + |s.left|
  }

  /**
   What holds before the live completion is refreshed: leftovers may stand between the text and
   the end of the shown line.
   */
  predicate Draft(cfg: Config, s: Line, t: Term) {
    Shows(t, cfg.invitation + Text(s), |cfg.invitation| + |s.left|, |cfg.invitation| + s.inputLineLength)
  }

  lemma MirrorDraft(cfg: Config, s: Line, t: Term)
    requires GoodConfig(cfg) && Sound(cfg, s) && Settled(cfg, s) && Mirror(cfg, s, t)
    ensures Draft(cfg, s, t)
  {
    SuffixFits(cfg, s);
  }

  lemma ShowsAll(t: Term, all: string, col: nat)
    requires Shows(t, all, col, |all|)
    ensures t.row == all + Spaces(|t.row| - |all|)
  {
    assert t.row == t.row[..|all|] + t.row[|all|..];
  }

  lemma LiveMirrors(cfg: Config, s: Line, t: Screen)
    requires GoodConfig(cfg) && Sound(cfg, s) && Draft(cfg, s, t) && Wide(cfg, t)
    ensures Mirror(cfg, Live(cfg, s), Feed(t, LiveOutput(cfg, s)))
  {
    SuffixFits(cfg, s);
    var suffix := Suffix(cfg, s);
    LiveShows(cfg, s, t, suffix);
    ShowsMirror(cfg, s, Feed(t, LiveOutput(cfg, s)), suffix);
  }

  lemma LiveShows(cfg: Config, s: Line, t: Screen, suffix: string)
    requires GoodConfig(cfg) && Sound(cfg, s) && Draft(cfg, s, t) && Wide(cfg, t)
    requires suffix == Suffix(cfg, s) && AllPrintable(suffix) && |Text(s)| + |suffix| == ShownLength(cfg, s)
    requires ShownLength(cfg, s) + 2 <= cfg.cmdMaxSize
    ensures Shows(Feed(t, LiveOutput(cfg, s)), cfg.invitation + Text(s) + suffix, |cfg.invitation| + |s.left|,
                  |cfg.invitation| + |Text(s)| + |suffix|)
  {
    Refreshed(t, cfg.invitation + Text(s), |s.right|, suffix, |cfg.invitation| + s.inputLineLength);
  }

  lemma ShowsMirror(cfg: Config, s: Line, u: Term, suffix: string)
    requires suffix == Suffix(cfg, s)
    requires Shows(u, cfg.invitation + Text(s) + suffix, |cfg.invitation| + |s.left|,
             |cfg.invitation| + |Text(s)| + |suffix|)
    ensures Mirror(cfg, Live(cfg, s), u)
  {
    ShowsAll(u, cfg.invitation + Text(s) + suffix, |cfg.invitation| + |s.left|);
    assert Text(Live(cfg, s)) == Text(s);
  }

  /** The leftovers of the old line are gone before a new one is printed. */
  lemma ClearedBlank(cfg: Config, s: Line, t: Screen)
    requires Sound(cfg, s) && Draft(cfg, s, t)
    ensures AtBlank(Feed(t, ClearOutput(cfg, s)))
  {
    Cleared(t, cfg.invitation + Text(s), |cfg.invitation| + |s.left|, |cfg.invitation| + s.inputLineLength);
  }

  lemma Joined(a: string, b: string)
    requires AllPrintable(a) && AllPrintable(b)
    ensures AllPrintable(a + b)
  {
  }

  lemma PrintedLine(cfg: Config, s: Line, t: Screen, text: string)
    requires GoodConfig(cfg) && GoodLine(cfg, text) && AtBlank(t) && Wide(cfg, t)
    ensures Draft(cfg, WithText(s, text), Feed(t, cfg.invitation + text))
  {
    Joined(cfg.invitation, text);
    ShownOnBlank(t, cfg.invitation + text);
    assert Text(WithText(s, text)) == text;
  }

  // ----- completion -----

  lemma CandidatesPlain(cfg: Config, s: Line, k: nat)
    requires GoodConfig(cfg) && k < |Candidates(cfg, s)|
    ensures AllPrintable(Candidates(cfg, s)[k])
  {
    Completion.CandidatesAre(Names(cfg.bindings), Text(s));
    assert Candidates(cfg, s)[k] in Names(cfg.bindings);
  }

  lemma {:induction false} ListingPlain(names: seq<string>)
    requires forall k :: 0 <= k < |names| ==> AllPrintable(names[k])
    ensures forall i :: 0 <= i < |Listing(names)| ==> Plain(Listing(names)[i])
  {
    if names != [] {
      ListingPlain(names[..|names| - 1]);
    }
  }

  lemma ListingBlank(t: Screen, names: seq<string>)
    requires t.mode == Ground && names != [] && forall k :: 0 <= k < |names| ==> AllPrintable(names[k])
    ensures AtBlank(Feed(t, Listing(names)))
  {
    var n := |names| - 1;
    ListingPlain(names[..n]);
    LineEndsBlank(t, Listing(names[..n]) + names[n]);
  }

  lemma CompletingIs(cfg: Config, s: Line)
    requires Completes(cfg, s)
    ensures AutocompleteRequest(cfg, s) == WithText(s, CompletedText(cfg, s))
    ensures CompleteOutput(cfg, s) == CompletedText(cfg, s)[|s.left|..]
    ensures |CompletedText(cfg, s)| >= |Text(s)| + |Suffix(cfg, s)|
  {
    hide CompletedText;
    CompletedSize(cfg, s);
  }

  lemma CompletedSize(cfg: Config, s: Line)
    ensures |CompletedText(cfg, s)| >= |Text(s)| + |Suffix(cfg, s)| && Text(s) <= CompletedText(cfg, s)
  {
    hide Completed, Suffix, ShownLength;
  }

  lemma CompletedDraft(cfg: Config, s: Line, t: Screen)
    requires GoodConfig(cfg) && Sound(cfg, s) && Settled(cfg, s) && Draft(cfg, s, t) && Wide(cfg, t)
             && Completes(cfg, s)
    ensures Draft(cfg, AutocompleteRequest(cfg, s), Feed(t, CompleteOutput(cfg, s)))
  {
    hide Completed, Suffix, ShownLength, AutocompleteRequest, CompleteOutput, GoodConfig;
    SuffixFits(cfg, s);
    CompletingIs(cfg, s);
    CompletedSize(cfg, s);
    var text := CompletedText(cfg, s);
    assert Text(WithText(s, text)) == text;
    TypedOn(t, cfg.invitation, s.left, s.right, text, |cfg.invitation| + s.inputLineLength);
  }

  /** A longer text written from the cursor on. */
  lemma TypedOn(t: Term, invitation: string, left: string, right: string, text: string, limit: nat)
    requires Shows(t, invitation + (left + right), |invitation| + |left|, limit) && AllPrintable(text)
    requires left <= text && limit <= |invitation| + |text| < |t.row|
    ensures Shows(Feed(t, text[|left|..]), invitation + text, |invitation| + |text|, |invitation| + |text|)
  {
    var before, done := invitation + left, text[|left|..];
    assert invitation + text == before + done;
    assert invitation + (left + right) == before + right;
    LeftShown(t, before, right, limit);
    Overtyped(t, before, done, limit);
  }

  lemma LeftShown(t: Term, left: string, right: string, limit: nat)
    requires Shows(t, left + right, |left|, limit)
    ensures Shows(t, left, |left|, limit)
  {
    assert t.row[..|left|] == t.row[..|left + right|][..|left|];
  }

  lemma Overtyped(t: Term, before: string, more: string, limit: nat)
    requires Shows(t, before, |before|, limit) && AllPrintable(more) && limit <= |before| + |more| < |t.row|
    ensures Shows(Feed(t, more), before + more, |before| + |more|, |before| + |more|)
  {
    Overwritten(t, before, more, limit);
  }

  lemma ListedDraft(cfg: Config, s: Line, t: Screen)
    requires GoodConfig(cfg) && Sound(cfg, s) && Draft(cfg, s, t) && Wide(cfg, t)
    requires Completed(cfg, s).candidateCount > 0 && !Completes(cfg, s)
    ensures Draft(cfg, AutocompleteRequest(cfg, s), Feed(t, CompleteOutput(cfg, s)))
  {
    ClearedBlank(cfg, s, t);
    var names := Candidates(cfg, s);
    forall k | 0 <= k < |names| ensures AllPrintable(names[k]) {
      CandidatesPlain(cfg, s, k);
    }
    var u := Feed(t, ClearOutput(cfg, s));
    ListingBlank(u, names);
    PrintedLine(cfg, s, Feed(u, Listing(names)), Text(s));
    FeedThree(t, ClearOutput(cfg, s), Listing(names), cfg.invitation + Text(s));
  }

  lemma FeedThree(t: Term, a: string, b: string, c: string)
    requires Terminal.Valid(t)
    ensures Feed(t, a + (b + c)) == Feed(Feed(Feed(t, a), b), c)
  {
    FeedConcat(t, a, b + c);
    FeedConcat(Feed(t, a), b, c);
  }

  lemma CompleteDraft(cfg: Config, s: Line, t: Screen)
    requires GoodConfig(cfg) && Sound(cfg, s) && Settled(cfg, s) && Draft(cfg, s, t) && Wide(cfg, t)
    ensures Draft(cfg, AutocompleteRequest(cfg, s), Feed(t, CompleteOutput(cfg, s)))
  {
    if Completes(cfg, s) {
      CompletedDraft(cfg, s, t);
    } else if Completed(cfg, s).candidateCount > 0 {
      ListedDraft(cfg, s, t);
    }
  }

  // ----- history and cursor -----

  lemma NavigateDraft(cfg: Config, s: Line, t: Screen, up: bool)
    requires GoodConfig(cfg) && Sound(cfg, s) && Draft(cfg, s, t) && Wide(cfg, t)
    ensures Draft(cfg, Navigate(cfg, s, up), Feed(t, NavigateOutput(cfg, s, up)))
  {
    if !AtHistoryEnd(s, up) {
      var k := Neighbour(s, up);
      var u := Feed(t, LoadOutput(cfg, s, k));
      LoadDraft(cfg, s, t, k);
      LoadedDraft(cfg, Load(s, k), u);
      FeedConcat(t, LoadOutput(cfg, s, k), LiveOutput(cfg, Load(s, k)));
    }
  }

  lemma LoadDraft(cfg: Config, s: Line, t: Screen, k: nat)
    requires GoodConfig(cfg) && Sound(cfg, s) && Draft(cfg, s, t) && Wide(cfg, t) && k <= |s.items|
    ensures Sound(cfg, Load(s, k)) && Draft(cfg, Load(s, k), Feed(t, LoadOutput(cfg, s, k)))
  {
    WithTextSound(cfg, s.(current := k), Loaded(s, k));
    ClearedBlank(cfg, s, t);
    PrintedLine(cfg, s.(current := k), Feed(t, ClearOutput(cfg, s)), Loaded(s, k));
    FeedConcat(t, ClearOutput(cfg, s), cfg.invitation + Loaded(s, k));
  }

  lemma LoadedDraft(cfg: Config, s: Line, t: Screen)
    requires GoodConfig(cfg) && Sound(cfg, s) && Draft(cfg, s, t) && Wide(cfg, t)
    ensures Draft(cfg, Live(cfg, s), Feed(t, LiveOutput(cfg, s)))
  {
    LiveSound(cfg, s);
    LiveMirrors(cfg, s, t);
    MirrorDraft(cfg, Live(cfg, s), Feed(t, LiveOutput(cfg, s)));
  }

  lemma MovedDraft(cfg: Config, s: Line, t: Screen)
    requires Sound(cfg, s) && Draft(cfg, s, t) && Wide(cfg, t)
    ensures s.right != [] ==> Draft(cfg, MoveRight(s), Feed(t, Simple('C')))
    ensures s.left != [] ==> Draft(cfg, MoveLeft(s), Feed(t, Simple('D')))
  {
    var shown, col, limit := cfg.invitation + Text(s), |cfg.invitation| + |s.left|,
        |cfg.invitation| + s.inputLineLength;
    MoveText(s.left, s.right);
    if s.right != [] {
      MovedRight(t, shown, col, limit);
      assert Text(MoveRight(s)) == Text(s);
    }
    if s.left != [] {
      MovedLeft(t, shown, col, limit);
      assert Text(MoveLeft(s)) == Text(s);
    }
  }

  lemma StepDraft(cfg: Config, s: Line, t: Screen, c: char)
    requires Sound(cfg, s) && Draft(cfg, s, t) && Wide(cfg, t) && c != 'A' && c != 'B'
    ensures Draft(cfg, EscapedInput(cfg, s, c), Feed(t, EscapedOutput(cfg, s, c)))
  {
    var l := s.(escapeMode := false);
    assert Text(l) == Text(s);
    MovedDraft(cfg, l, t);
  }

  lemma EscapedDraft(cfg: Config, s: Line, t: Screen, c: char)
    requires GoodConfig(cfg) && Sound(cfg, s) && Draft(cfg, s, t) && Wide(cfg, t)
    ensures Draft(cfg, EscapedInput(cfg, s, c), Feed(t, EscapedOutput(cfg, s, c)))
  {
    if c == 'A' || c == 'B' {
      NavigateDraft(cfg, s.(escapeMode := false), t, c == 'A');
    } else {
      StepDraft(cfg, s, t, c);
    }
  }

  // ----- typing -----

  /** There is room for one more character, in the buffer and in the row. */
  lemma RoomLeft(cfg: Config, s: Line, t: Term)
    requires GoodConfig(cfg) && Sound(cfg, s) && Settled(cfg, s) && Wide(cfg, t) && !Full(cfg, s)
    ensures |cfg.invitation| + s.inputLineLength + 1 < |t.row|
  {
    SuffixFits(cfg, s);
  }

  lemma CharDraft(cfg: Config, s: Line, t: Screen, c: char)
    requires GoodConfig(cfg) && Sound(cfg, s) && Settled(cfg, s) && Draft(cfg, s, t) && Wide(cfg, t) && Printable(c)
    ensures Draft(cfg, CharInput(cfg, s, c), Feed(t, CharOutput(cfg, s, c)))
  {
    if !Full(cfg, s) {
      RoomLeft(cfg, s, t);
      TypedDraft(t, cfg.invitation, s.left, s.right, c, |cfg.invitation| + s.inputLineLength);
    }
  }

  lemma TypedDraft(t: Screen, invitation: string, left: string, right: string, c: char, limit: nat)
    requires Shows(t, invitation + (left + right), |invitation| + |left|, limit) && Printable(c) && limit + 1 < |t.row|
    ensures Shows(Feed(t, if right != [] then Simple('@') + [c] else [c]), invitation + (left + [c] + right),
            |invitation| + |left| + 1, limit + 1)
  {
    var before := invitation + left;
    assert invitation + (left + right) == before + right;
    assert invitation + (left + [c] + right) == before + [c] + right;
    if right == [] {
      assert before + right == before && before + [c] + right == before + [c];
      Appended(t, before, c, limit);
    } else {
      Inserted(t, before, right, c, limit);
    }
  }

  lemma EraseDraft(cfg: Config, s: Line, t: Screen)
    requires Draft(cfg, s, t)
    ensures Draft(cfg, Erase(s), Feed(t, EraseOutput(s)))
  {
    if s.left != [] {
      var n := |s.left| - 1;
      var left := cfg.invitation + s.left[..n];
      assert cfg.invitation + Text(s) == left + [s.left[n]] + s.right;
      assert cfg.invitation + (s.left[..n] + s.right) == left + s.right;
      Deleted(t, left, s.left[n], s.right, |cfg.invitation| + s.inputLineLength);
    }
  }

  // ----- entering a line -----

  lemma AnswerBlank(cfg: Config, s: Line, t: Screen)
    requires GoodConfig(cfg) && RepliesEndBlank(cfg) && GoodLine(cfg, Text(s)) && AtBlank(t)
    ensures AtBlank(Feed(t, ParseOutput(cfg, s)))
  {
    if !AllSpaces(Text(s)) {
      var calls := Parse(cfg, s).calls;
      match calls[|calls| - 1]
      case Invoke(_, _) =>
      case HelpFor(k) => HelpBlank(cfg, t, k);
      case Default(_, _) =>
      case Unknown(name) =>
        NamePlain(Text(s));
        ComplaintBlank(t, name);
    }
  }

  lemma HelpBlank(cfg: Config, t: Screen, k: nat)
    requires GoodConfig(cfg) && AtBlank(t)
    ensures AtBlank(Feed(t, if k < |cfg.bindings| then HelpText(cfg.bindings[k].help) else []))
  {
    if k < |cfg.bindings| && cfg.bindings[k].help.Some? {
      assert GoodBinding(cfg.bindings[k], cfg.cmdMaxSize);
      LineEndsBlank(t, ['\t'] + cfg.bindings[k].help.value);
    }
  }

  lemma ComplaintPlain()
    ensures AllPrintable(COMPLAINT_START) && AllPrintable(COMPLAINT_END)
  {
    assert AllPrintable("Unknown command: \"");
    assert AllPrintable("\". Write \"help\"") && AllPrintable(" for a list of available commands");
    Joined("\". Write \"help\"", " for a list of available commands");
  }

  lemma ComplaintBlank(t: Screen, name: string)
    requires AtBlank(t) && AllPrintable(name)
    ensures AtBlank(Feed(t, Complaint(name)))
  {
    ComplaintPlain();
    Joined(COMPLAINT_START, name);
    LineEndsBlank(t, COMPLAINT_START + name + COMPLAINT_END);
  }

  lemma {:induction false} SkipPlain(s: string)
    requires AllPrintable(s)
    ensures AllPrintable(SkipSpaces(s))
    decreases |s|
  {
    if s != [] && s[0] == ' ' {
      SkipPlain(s[1..]);
    }
  }

  lemma NamePlain(line: string)
    requires AllPrintable(line)
    ensures AllPrintable(CommandName(line))
  {
    SkipPlain(line);
  }

  lemma EnterDraft(cfg: Config, s: Line, t: Screen)
    requires GoodConfig(cfg) && RepliesEndBlank(cfg) && Sound(cfg, s) && Settled(cfg, s) && Draft(cfg, s, t)
             && Wide(cfg, t)
    ensures Draft(cfg, Enter(cfg, s), Feed(t, EnterOutput(cfg, s)))
  {
    var a := AutocompleteRequest(cfg, s);
    CompleteDraft(cfg, s, t);
    CompleteSound(cfg, s);
    SubmitDraft(cfg, a, Feed(t, CompleteOutput(cfg, s)));
    FeedConcat(t, CompleteOutput(cfg, s), LINE_BREAK + (ParseOutput(cfg, a) + cfg.invitation));
    assert Text(Enter(cfg, s)) == [];
    assert cfg.invitation + [] == cfg.invitation;
  }

  lemma SubmitDraft(cfg: Config, s: Line, t: Screen)
    requires GoodConfig(cfg) && RepliesEndBlank(cfg) && GoodLine(cfg, Text(s)) && t.mode == Ground && Wide(cfg, t)
    ensures Shows(Feed(t, LINE_BREAK + (ParseOutput(cfg, s) + cfg.invitation)), cfg.invitation, |cfg.invitation|,
            |cfg.invitation|)
  {
    FeedThree(t, LINE_BREAK, ParseOutput(cfg, s), cfg.invitation);
    LineEndsBlank(t, []);
    assert [] + ['\r', '\n'] == LINE_BREAK;
    var v := Feed(t, LINE_BREAK);
    AnswerBlank(cfg, s, v);
    ShownOnBlank(Feed(v, ParseOutput(cfg, s)), cfg.invitation);
  }

  lemma ControlDraft(cfg: Config, s: Line, t: Screen, c: char)
    requires GoodConfig(cfg) && RepliesEndBlank(cfg) && Sound(cfg, s) && Settled(cfg, s) && Draft(cfg, s, t)
             && Wide(cfg, t)
    ensures Draft(cfg, ControlInput(cfg, s, c), Feed(t, ControlOutput(cfg, s, c)))
  {
    if SecondBreak(s, c) {
    } else if IsBreak(c) {
      EnterDraft(cfg, s, t);
    } else if c == '\t' {
      CompleteDraft(cfg, s, t);
    } else {
      EraseDraft(cfg, s, t);
    }
  }

  // ----- every character, every run -----

  lemma HandleDraft(cfg: Config, s: Line, t: Screen, c: char)
    requires GoodConfig(cfg) && RepliesEndBlank(cfg) && Sound(cfg, s) && Settled(cfg, s) && Draft(cfg, s, t)
             && Wide(cfg, t)
    ensures Draft(cfg, Handle(cfg, s, c), Feed(t, HandleOutput(cfg, s, c)))
  {
    if s.escapeMode {
      EscapedDraft(cfg, s, t, c);
    } else if StartsSequence(s, c) {
      assert Text(s.(escapeMode := true)) == Text(s);
    } else if IsControl(c) {
      ControlDraft(cfg, s, t, c);
    } else if Printable(c) {
      CharDraft(cfg, s, t, c);
    }
  }

  lemma ProcessMirrors(cfg: Config, s: Line, t: Screen, c: char)
    requires GoodConfig(cfg) && RepliesEndBlank(cfg) && Sound(cfg, s) && Settled(cfg, s) && Mirror(cfg, s, t)
             && Wide(cfg, t)
    ensures Mirror(cfg, Process(cfg, s, c), Feed(t, ProcessOutput(cfg, s, c)))
  {
    MirrorDraft(cfg, s, t);
    HandleDraft(cfg, s, t, c);
    HandleSound(cfg, s, c);
    var u := Feed(t, HandleOutput(cfg, s, c));
    LiveMirrors(cfg, Handle(cfg, s, c), u);
    FeedConcat(t, HandleOutput(cfg, s, c), LiveOutput(cfg, Handle(cfg, s, c)));
    MirrorAnyLast(cfg, Live(cfg, Handle(cfg, s, c)), Feed(t, ProcessOutput(cfg, s, c)), c);
  }

  lemma MirrorAnyLast(cfg: Config, s: Line, t: Term, c: char)
    requires Mirror(cfg, s, t)
    ensures Mirror(cfg, s.(lastChar := c), t)
  {
    assert Text(s.(lastChar := c)) == Text(s);
  }

  lemma NextMirrors(cfg: Config, s: Line, t: Screen, out: string, c: char)
    requires GoodConfig(cfg) && RepliesEndBlank(cfg) && Sound(cfg, s) && Settled(cfg, s) && Wide(cfg, t)
    requires Mirror(cfg, s, Feed(t, out))
    ensures Mirror(cfg, Process(cfg, s, c), Feed(t, out + ProcessOutput(cfg, s, c)))
  {
    ProcessMirrors(cfg, s, Feed(t, out), c);
    FeedConcat(t, out, ProcessOutput(cfg, s, c));
  }

  lemma StartMirrors(cfg: Config, t: Screen)
    requires GoodConfig(cfg) && AtBlank(t) && Wide(cfg, t)
    ensures Mirror(cfg, START, Feed(t, cfg.invitation))
  {
    ShownOnBlank(t, cfg.invitation);
    ShowsAll(Feed(t, cfg.invitation), cfg.invitation, |cfg.invitation|);
  }

  /**
   After every character of every input, the current row is the invitation, the text, its
   live completion and blanks, and the cursor stands where the next character would go.
   */
  lemma {:induction false} RunMirrors(cfg: Config, t: Screen, input: string)
    requires GoodConfig(cfg) && RepliesEndBlank(cfg) && AtBlank(t) && Wide(cfg, t)
    ensures Mirror(cfg, Run(cfg, START, input), Feed(t, RunOutput(cfg, START, cfg.invitation, input)))
  {
    if input == [] {
      StartMirrors(cfg, t);
    } else {
      var n := |input| - 1;
      RunMirrors(cfg, t, input[..n]);
      RunSound(cfg, input[..n]);
      NextMirrors(cfg, Run(cfg, START, input[..n]), t, RunOutput(cfg, START, cfg.invitation, input[..n]), input[n]);
    }
  }
}
