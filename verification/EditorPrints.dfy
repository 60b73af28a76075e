/** What is printed above the line: answers to entered commands, and lists of candidates. */
module EditorPrints {
  import opened Common
  import opened Terminal
  import opened ScreenRow
  import opened Commands
  import opened CommandLine
  import opened CommandOutput
  import opened LineEditor
  import opened EnteredLines
  import opened EditorKeys
  import Completion

  lemma PrintsOne(cfg: Config, s: Line, before: string, c: char)
    ensures RunOutput(cfg, s, before, [c]) == before + ProcessOutput(cfg, s, c)
  {
    assert [c][..0] == [] && Run(cfg, s, []) == s && RunOutput(cfg, s, before, []) == before;
  }

  /** The text that answers a call, after the calls before it. */
  function AnswerText(cfg: Config, calls: seq<Call>, call: Call): string {
    match call
    case Unknown(name) =>
      "Unknown command: \"" + name + "\". Write \"help\"" + " for a list of available commands" + "\r\n"
    case HelpFor(k) =>
      if k < |cfg.bindings| && cfg.bindings[k].help.Some? then "\t" + cfg.bindings[k].help.value + "\r\n" else ""
    case Invoke(_, _) => cfg.reply(calls + [call])
    case Default(_, _) => cfg.reply(calls + [call])
  }

  lemma AnswerIs(cfg: Config, calls: seq<Call>, call: Call)
    ensures Answer(cfg, calls + [call]) == AnswerText(cfg, calls, call)
  {
    assert (calls + [call])[|calls + [call]| - 1] == call;
    match call
    case Unknown(name) => ComplaintIs(name);
    case HelpFor(k) =>
      if k < |cfg.bindings| {
        HelpIs(cfg, k);
      }
    case _ =>
  }

  lemma ComplaintIs(name: string)
    ensures Complaint(name) ==
            "Unknown command: \"" + name + "\". Write \"help\"" + " for a list of available commands" + "\r\n"
  {
    var start, help, rest := "Unknown command: \"", "\". Write \"help\"", " for a list of available commands";
    Associates(start + name, help, rest);
  }

  lemma Associates(a: string, b: string, c: string)
    ensures a + (b + c) == a + b + c
  {
  }

  lemma HelpIs(cfg: Config, k: nat)
    requires k < |cfg.bindings|
    ensures HelpText(cfg.bindings[k].help) ==
            if cfg.bindings[k].help.Some? then "\t" + cfg.bindings[k].help.value + "\r\n" else ""
  {
  }

  /** The cursor is saved and restored at once: there is no completion to show. */
  const NO_COMPLETION: string := [27 as char, '[', 's', 27 as char, '[', 'u']

  lemma NothingLive(cfg: Config, s: Line)
    requires s.right == [] && Suffix(cfg, s) == [] && s.inputLineLength == |Text(s)| == ShownLength(cfg, s)
    ensures LiveOutput(cfg, s) == NO_COMPLETION
  {
    assert Spaces(0) == [] && Move(0, 'C') == [];
    assert Simple('s') + ([] + ([] + ([] + Simple('u')))) == NO_COMPLETION;
  }

  lemma EmptyLive(cfg: Config, s: Line)
    requires s.left == [] && s.right == [] && s.inputLineLength == 0
    ensures LiveOutput(cfg, s) == NO_COMPLETION
  {
    assert Text(s) == [];
    NothingLive(cfg, s);
  }

  /**
   Enter on a line that no binding's name extends prints a line break, the answer to the line's
   command unless the line is blank, and the invitation.
   */
  lemma EnterPrints(cfg: Config, s: Line, before: string, c: char)
    requires Editing(cfg, s) && c as int in {10, 13} && !(s.lastChar as int in {10, 13} && s.lastChar != c)
    requires forall k: nat :: !Extends(cfg, s, k)
    ensures var text := Text(s);
            RunOutput(cfg, s, before, [c]) ==
            before + "\r\n"
            + (if forall i :: 0 <= i < |text| ==> text[i] == ' ' then ""
               else AnswerText(cfg, s.calls, Dispatch(cfg.bindings, cfg.onCommand, text)))
            + cfg.invitation + NO_COMPLETION
  {
    hide Answer, LiveOutput, Dispatch, AnswerText, Extends, ParseOutput, EnterOutput, Enter, ProcessOutput;
    PrintsOne(cfg, s, before, c);
    BreakPrints(cfg, s, c);
    NoneTo(cfg, s);
    UncompletedPrints(cfg, s);
    ParsePrints(cfg, s);
    EmptyLive(cfg, Enter(cfg, s));
    RegroupAnswer(before, ParseOutput(cfg, s), cfg.invitation, NO_COMPLETION);
  }

  lemma RegroupAnswer(before: string, answer: string, invitation: string, rest: string)
    ensures before + (LINE_BREAK + (answer + invitation) + rest) == before + "\r\n" + answer + invitation + rest
  {
  }

  lemma BreakPrints(cfg: Config, s: Line, c: char)
    requires Editing(cfg, s) && c as int in {10, 13} && !(s.lastChar as int in {10, 13} && s.lastChar != c)
    ensures ProcessOutput(cfg, s, c) == EnterOutput(cfg, s) + LiveOutput(cfg, Enter(cfg, s))
    ensures Enter(cfg, s).left == [] && Enter(cfg, s).right == [] && Enter(cfg, s).inputLineLength == 0
  {
    hide Sound, Settled, GoodConfig, EnterOutput, LiveOutput, Parse, AutocompleteRequest;
  }

  lemma UncompletedPrints(cfg: Config, s: Line)
    requires Completed(cfg, s).candidateCount == 0
    ensures EnterOutput(cfg, s) == LINE_BREAK + (ParseOutput(cfg, s) + cfg.invitation)
  {
    hide ParseOutput, Completed;
  }

  lemma ParsePrints(cfg: Config, s: Line)
    ensures ParseOutput(cfg, s) ==
            if forall i :: 0 <= i < |Text(s)| ==> Text(s)[i] == ' ' then ""
            else AnswerText(cfg, s.calls, Dispatch(cfg.bindings, cfg.onCommand, Text(s)))
  {
    hide Answer, Dispatch, AnswerText;
    AnswerIs(cfg, s.calls, Dispatch(cfg.bindings, cfg.onCommand, Text(s)));
  }

  /** The names of the bindings that a text abbreviates, a line each, in the order of the bindings. */
  function NameLines(bindings: seq<Binding>, text: string): string {
    if bindings == [] then []
    else
      var n := |bindings| - 1;
      NameLines(bindings[..n], text) + if text <= bindings[n].name then bindings[n].name + "\r\n" else ""
  }

  lemma {:induction false} ListingIs(bindings: seq<Binding>, text: string)
    ensures Listing(Completion.Candidates(Names(bindings), text)) == NameLines(bindings, text)
  {
    if bindings != [] {
      var n := |bindings| - 1;
      ListingIs(bindings[..n], text);
      assert Names(bindings)[..n] == Names(bindings[..n]);
      var cands, last := Completion.Candidates(Names(bindings[..n]), text), bindings[n].name;
      if text <= last {
        assert (cands + [last])[..|cands|] == cands;
        assert Listing(cands + [last]) == Listing(cands) + last + LINE_BREAK;
        assert Listing(cands) + last + LINE_BREAK == Listing(cands) + (last + "\r\n");
      } else {
        assert cands + [] == cands && Listing(cands) + "" == Listing(cands);
      }
    }
  }

  /**
   Tab on a text that several bindings extend, and whose completion adds nothing, clears the line,
   prints the names of these bindings, and shows the line again.
   */
  lemma TabLists(cfg: Config, s: Line, before: string)
    requires Editing(cfg, s) && CompletesTo(cfg, s, Text(s))
    requires exists j: nat, k: nat :: j != k && Extends(cfg, s, j) && Extends(cfg, s, k)
    ensures var shown := |cfg.invitation| + |Text(s)|;
            RunOutput(cfg, s, before, [9 as char]) ==
            before + "\r" + Spaces(shown) + "\r" + NameLines(cfg.bindings, Text(s)) + cfg.invitation + Text(s)
            + NO_COMPLETION
  {
    hide Extends, Completed, LiveOutput, NameLines, CompletesTo, ProcessOutput, CompleteOutput;
    AddsNothing(cfg, s);
    PrintsOne(cfg, s, before, 9 as char);
    TabPrints(cfg, s);
    ListingIs(cfg.bindings, Text(s));
    ListPrints(cfg, s);
    Regroup(before, Spaces(|Text(s)| + |cfg.invitation|), NameLines(cfg.bindings, Text(s)), cfg.invitation, Text(s),
            NO_COMPLETION);
  }

  lemma Regroup(before: string, blanks: string, list: string, invitation: string, text: string, rest: string)
    ensures before + (['\r'] + (blanks + ['\r']) + (list + (invitation + text)) + rest) ==
            before + "\r" + blanks + "\r" + list + invitation + text + rest
  {
  }

  lemma TabPrints(cfg: Config, s: Line)
    requires Editing(cfg, s)
    ensures ProcessOutput(cfg, s, 9 as char) ==
            CompleteOutput(cfg, s) + LiveOutput(cfg, AutocompleteRequest(cfg, s))
  {
    hide Sound, Settled, GoodConfig, CompleteOutput, LiveOutput, AutocompleteRequest;
  }

  lemma ListPrints(cfg: Config, s: Line)
    requires Completed(cfg, s).candidateCount > 1 && !Completes(cfg, s) && s.inputLineLength == |Text(s)|
    ensures CompleteOutput(cfg, s) ==
            ['\r'] + (Spaces(|Text(s)| + |cfg.invitation|) + ['\r'])
            + (Listing(Candidates(cfg, s)) + (cfg.invitation + Text(s)))
  {
    hide Completed, Listing, Candidates;
  }

  lemma AddsNothing(cfg: Config, s: Line)
    requires Editing(cfg, s) && CompletesTo(cfg, s, Text(s))
    requires exists j: nat, k: nat :: j != k && Extends(cfg, s, j) && Extends(cfg, s, k)
    ensures Completed(cfg, s).candidateCount > 1 && !Completes(cfg, s) && s.inputLineLength == |Text(s)|
    ensures LiveOutput(cfg, AutocompleteRequest(cfg, s)) == NO_COMPLETION
  {
    hide Extends, LiveOutput, Completion.CommonLength;
    var j: nat, k: nat :| j != k && Extends(cfg, s, j) && Extends(cfg, s, k);
    SeveralExtend(cfg, s, k);
    var a := AutocompleteRequest(cfg, s);
    assert CommonToAll(cfg, Text(s), Text(a));
    assert Text(a) <= Text(s);
    ShownIsText(cfg, s);
    assert a.left == Text(s) && Text(s) + [] == Text(s);
    NothingLive(cfg, a);
  }

  /** A completion that is no longer than the text shows nothing. */
  lemma ShownIsText(cfg: Config, s: Line)
    requires Editing(cfg, s) && Completed(cfg, s).candidateCount > 1 && Text(AutocompleteRequest(cfg, s)) <= Text(s)
    ensures !Completes(cfg, s) && ShownLength(cfg, s) == |Text(s)| && Suffix(cfg, s) == []
    ensures AutocompleteRequest(cfg, s) == WithText(s, Text(s))
  {
    hide Completion.CommonLength, Completion.Candidates;
    SuffixFits(cfg, s);
    SuffixTells(cfg, s);
    TextAfter(cfg, s);
  }
}
