/**
 The command line as a state machine over received characters: the line being edited around
 its cursor, the history, and the commands run so far. What it prints is in CommandOutput.
 */
module CommandLine {
  import opened Terminal
  import opened Commands
  import Completion
  import History

  /**
   `onCommand` tells whether the default callback is set, and `reply` is what the last of the
   calls made so far prints.
   */
  datatype Config = Config(invitation: string, bindings: seq<Binding>, onCommand: bool, cmdMaxSize: nat,
      historySize: nat,
                           reply: seq<Call> -> string)

  /** The line left and right of the cursor, and everything else that later characters depend on. */
  datatype Line = Line(left: string, right: string, items: seq<string>, current: nat, inputLineLength: nat,
                       lastChar: char, escapeMode: bool, calls: seq<Call>)

  function Text(s: Line): string {
    s.left + s.right
  }

  /** The completion of the line among the bindings' names. */
  function Completed(cfg: Config, s: Line): Completion.Completed {
    Completion.Complete(Names(cfg.bindings), Text(s))
  }

  function Candidates(cfg: Config, s: Line): seq<string> {
    Completion.Candidates(Names(cfg.bindings), Text(s))
  }

  function ShownLength(cfg: Config, s: Line): (n: nat)
    ensures n >= |Text(s)|
  {
    if Completed(cfg, s).candidateCount == 0 then |Text(s)|
    else
      Completion.CommonExtends(Names(cfg.bindings), Text(s));
      Completed(cfg, s).autocompletedLen
  }

  /** The part of the completion that is not typed yet. */
  function Suffix(cfg: Config, s: Line): string {
    if Completed(cfg, s).candidateCount == 0 then []
    else
      Completion.CommonExtends(Names(cfg.bindings), Text(s));
      Completed(cfg, s).firstCandidate[|Text(s)|..ShownLength(cfg, s)]
  }

  /** printLiveAutocompletion. */
  function Live(cfg: Config, s: Line): Line {
    s.(inputLineLength := ShownLength(cfg, s))
  }

  /** The line replaced by a text that is on the screen, with the cursor at its end. */
  function WithText(s: Line, text: string): Line {
    s.(left := text, right := [], inputLineLength := |text|)
  }

  /** The text that a completion puts into the line, with a space after a unique candidate. */
  function CompletedText(cfg: Config, s: Line): string {
    Text(s) + Suffix(cfg, s) + if Completed(cfg, s).candidateCount == 1 then [' '] else []
  }

  /** Whether a completion request adds to the text; otherwise it lists the candidates, if any. */
  predicate Completes(cfg: Config, s: Line) {
    var cmd := Completed(cfg, s);
    cmd.candidateCount == 1 || (cmd.candidateCount > 1 && cmd.autocompletedLen > |Text(s)|)
  }

  /** onAutocompleteRequest. */
  function AutocompleteRequest(cfg: Config, s: Line): Line {
    if Completed(cfg, s).candidateCount == 0 then s
    else WithText(s, if Completes(cfg, s) then CompletedText(cfg, s) else Text(s))
  }

  /** The command at a history position, where 0 stands for an empty line. */
  function Loaded(s: Line, current: nat): string {
    if current == 0 || current > |s.items| then [] else s.items[current - 1]
  }

  predicate AtHistoryEnd(s: Line, up: bool) {
    s.items == [] || (if up then s.current == |s.items| else s.current == 0)
  }

  function Neighbour(s: Line, up: bool): nat {
    if up then s.current + 1 else if s.current == 0 then 0 else s.current - 1
  }

  /** The command at another history position in place of the line. */
  function Load(s: Line, current: nat): Line {
    WithText(s.(current := current), Loaded(s, current))
  }

  /** navigateHistory: one command older or newer. */
  function Navigate(cfg: Config, s: Line, up: bool): Line {
    if AtHistoryEnd(s, up) then s else Live(cfg, Load(s, Neighbour(s, up)))
  }

  function MoveRight(s: Line): Line {
    if s.right == [] then s else s.(left := s.left + [s.right[0]], right := s.right[1..])
  }

  function MoveLeft(s: Line): Line {
    if s.left == [] then s else s.(left := s.left[..|s.left| - 1], right := [s.left[|s.left| - 1]] + s.right)
  }

  predicate EndsSequence(c: char) {
    '@' <= c <= '~'
  }

  /** onEscapedInput. */
  function EscapedInput(cfg: Config, s: Line, c: char): Line {
    if !EndsSequence(c) then s
    else
      var t := s.(escapeMode := false);
      if c == 'A' || c == 'B' then Navigate(cfg, t, c == 'A')
      else if c == 'C' then MoveRight(t)
      else if c == 'D' then MoveLeft(t)
      else t
  }

  predicate Full(cfg: Config, s: Line) {
    |Text(s)| + 2 >= cfg.cmdMaxSize
  }

  /** onCharInput. */
  function CharInput(cfg: Config, s: Line, c: char): Line {
    if Full(cfg, s) then s else s.(left := s.left + [c], inputLineLength := s.inputLineLength + 1)
  }

  function Called(cfg: Config, line: string): Call {
    Dispatch(cfg.bindings, cfg.onCommand, line)
  }

  /** parseCommand; the caller then empties the line. */
  function Parse(cfg: Config, s: Line): Line {
    if AllSpaces(Text(s)) then s
    else s.(items := History.Entered(s.items, Text(s), cfg.historySize), calls := s.calls + [Called(cfg, Text(s))])
  }

  /** The completed line is parsed, and a new one begins. */
  function Enter(cfg: Config, s: Line): Line {
    Parse(cfg, AutocompleteRequest(cfg, s)).(left := [], right := [], inputLineLength := 0, current := 0)
  }

  function Erase(s: Line): Line {
    if s.left == [] then s else s.(left := s.left[..|s.left| - 1])
  }

  /** The second half of a line break that was sent as two characters. */
  predicate SecondBreak(s: Line, c: char) {
    (s.lastChar == '\r' && c == '\n') || (s.lastChar == '\n' && c == '\r')
  }

  predicate IsBreak(c: char) {
    c == '\r' || c == '\n'
  }

  /** onControlInput. */
  function ControlInput(cfg: Config, s: Line, c: char): Line {
    if SecondBreak(s, c) then s
    else if IsBreak(c) then Enter(cfg, s)
    else if c == '\t' then AutocompleteRequest(cfg, s)
    else Erase(s)
  }

  predicate IsControl(c: char) {
    IsBreak(c) || c == '\U{08}' || c == '\t' || c == '\U{7F}'
  }

  predicate StartsSequence(s: Line, c: char) {
    s.lastChar == ESC && c == '['
  }

  /** What one character does before the live completion is refreshed. */
  function Handle(cfg: Config, s: Line, c: char): Line {
    if s.escapeMode then EscapedInput(cfg, s, c)
    else if StartsSequence(s, c) then s.(escapeMode := true)
    else if IsControl(c) then ControlInput(cfg, s, c)
    else if Printable(c) then CharInput(cfg, s, c)
    else s
  }

  /** One turn of the loop of embeddedCliProcess. */
  function Process(cfg: Config, s: Line, c: char): Line {
    Live(cfg, Handle(cfg, s, c)).(lastChar := c)
  }

  function Fold<S>(step: (S, char) -> S, s: S, input: string): S {
    if input == [] then s else step(Fold(step, s, input[..|input| - 1]), input[|input| - 1])
  }

  function Stepper(cfg: Config): (Line, char) -> Line {
    (s, c) => Process(cfg, s, c)
  }

  /** The line after a whole input. */
  function Run(cfg: Config, s: Line, input: string): Line {
    Fold(Stepper(cfg), s, input)
  }

  const START := Line([], [], [], 0, 0, '\0', false, [])

  // ----- what a configuration must satisfy -----

  predicate GoodBinding(b: Binding, cmdMaxSize: nat) {
    && b.name != [] && NoSpace(b.name) && AllPrintable(b.name) && |b.name| + 3 <= cmdMaxSize
    && (b.help.Some? ==> AllPrintable(b.help.value))
  }

  /** Binding names are words that fit the command buffer with a space after them. */
  predicate GoodConfig(cfg: Config) {
    && AllPrintable(cfg.invitation) && 3 <= cfg.cmdMaxSize < 0x1_0000
    && forall k :: 0 <= k < |cfg.bindings| ==> GoodBinding(cfg.bindings[k], cfg.cmdMaxSize)
  }
}
