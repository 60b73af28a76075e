/** What the command line prints for each character. */
module CommandOutput {
  import opened Common
  import opened Terminal
  import opened ScreenRow
  import opened Commands
  import opened CommandLine

  const LINE_BREAK := "\r\n"
  const COMPLAINT_START := "Unknown command: \""
  const COMPLAINT_END := "\". Write \"help\"" + " for a list of available commands"

  function Minus(a: nat, b: nat): nat {
    if a < b then 0 else a - b
  }

  /** printLiveAutocompletion. */
  function LiveOutput(cfg: Config, s: Line): string {
    Refresh(|s.right|, Suffix(cfg, s), Minus(s.inputLineLength, ShownLength(cfg, s)))
  }

  /** clearCurrentLine. */
  function ClearOutput(cfg: Config, s: Line): string {
    ['\r'] + (Spaces(s.inputLineLength + |cfg.invitation|) + ['\r'])
  }

  function Listing(names: seq<string>): string {
    if names == [] then [] else Listing(names[..|names| - 1]) + names[|names| - 1] + LINE_BREAK
  }

  /** onAutocompleteRequest. */
  function CompleteOutput(cfg: Config, s: Line): string {
    if Completed(cfg, s).candidateCount == 0 then []
    else if Completes(cfg, s) then CompletedText(cfg, s)[|s.left|..]
    else ClearOutput(cfg, s) + (Listing(Candidates(cfg, s)) + (cfg.invitation + Text(s)))
  }

  /** The line replaced by the command at a history position. */
  function LoadOutput(cfg: Config, s: Line, current: nat): string {
    ClearOutput(cfg, s) + (cfg.invitation + Loaded(s, current))
  }

  /** navigateHistory. */
  function NavigateOutput(cfg: Config, s: Line, up: bool): string {
    if AtHistoryEnd(s, up) then []
    else LoadOutput(cfg, s, Neighbour(s, up)) + LiveOutput(cfg, Load(s, Neighbour(s, up)))
  }

  /** onEscapedInput. */
  function EscapedOutput(cfg: Config, s: Line, c: char): string {
    if c == 'A' || c == 'B' then NavigateOutput(cfg, s.(escapeMode := false), c == 'A')
    else if (c == 'C' && s.right != []) || (c == 'D' && s.left != []) then Simple(c)
    else []
  }

  /** onCharInput. */
  function CharOutput(cfg: Config, s: Line, c: char): string {
    if Full(cfg, s) then [] else if s.right != [] then Simple('@') + [c] else [c]
  }

  /** What a call prints: the binding's own output, its help, or the complaint about an unknown command. */
  function Answer(cfg: Config, calls: seq<Call>): string
    requires calls != []
  {
    match calls[|calls| - 1]
    case Invoke(_, _) => cfg.reply(calls)
    case HelpFor(k) => if k < |cfg.bindings| then HelpText(cfg.bindings[k].help) else []
    case Default(_, _) => cfg.reply(calls)
    case Unknown(name) => Complaint(name)
  }

  /** printBindingHelp. */
  function HelpText(help: Option<string>): string {
    match help
    case None => []
    case Some(text) => ['\t'] + text + LINE_BREAK
  }

  /** onUnknownCommand. */
  function Complaint(name: string): string {
    COMPLAINT_START + name + COMPLAINT_END + LINE_BREAK
  }

  /** parseCommand. */
  function ParseOutput(cfg: Config, s: Line): string {
    if AllSpaces(Text(s)) then [] else Answer(cfg, Parse(cfg, s).calls)
  }

  function EnterOutput(cfg: Config, s: Line): string {
    CompleteOutput(cfg, s) + (LINE_BREAK + (ParseOutput(cfg, AutocompleteRequest(cfg, s)) + cfg.invitation))
  }

  function EraseOutput(s: Line): string {
    if s.left == [] then [] else Simple('D') + Simple('P')
  }

  /** onControlInput. */
  function ControlOutput(cfg: Config, s: Line, c: char): string {
    if SecondBreak(s, c) then []
    else if IsBreak(c) then EnterOutput(cfg, s)
    else if c == '\t' then CompleteOutput(cfg, s)
    else EraseOutput(s)
  }

  function HandleOutput(cfg: Config, s: Line, c: char): string {
    if s.escapeMode then EscapedOutput(cfg, s, c)
    else if StartsSequence(s, c) then []
    else if IsControl(c) then ControlOutput(cfg, s, c)
    else if Printable(c) then CharOutput(cfg, s, c)
    else []
  }

  /** The output of one turn of the loop of embeddedCliProcess. */
  function ProcessOutput(cfg: Config, s: Line, c: char): string {
    HandleOutput(cfg, s, c) + LiveOutput(cfg, Handle(cfg, s, c))
  }

  /** Everything printed for an input, on top of what had been printed before. */
  function RunOutput(cfg: Config, s: Line, before: string, input: string): string {
    if input == [] then before
    else
      var n := |input| - 1;
      RunOutput(cfg, s, before, input[..n]) + ProcessOutput(cfg, Run(cfg, s, input[..n]), input[n])
  }
}
