/**
 The command line on its buffers: the command with its right-relative cursor, the history,
 the receive queue, and one method per function of the original. Each method's new line and
 output are those of CommandLine and CommandOutput.
 */
module EmbeddedCli {
  import opened Common
  import opened Terminal
  import ScreenRow
  import opened Commands
  import opened CommandLine
  import opened CommandOutput
  import opened LineEditor
  import opened PackedStrings
  import Completion
  import CommandParts
  import Tokenizer
  import History
  import Fifo

  lemma RegroupFive(o: string, a: string, b: string, c: string, d: string, e: string)
    ensures o + (a + (b + (c + (d + e)))) == o + a + b + c + d + e
  {
  }

  lemma RegroupFour(o: string, a: string, b: string, c: string, d: string)
    ensures o + (a + (b + (c + d))) == o + a + b + c + d
  {
  }

  lemma CompletionInside(cfg: Config, s: Line)
    requires Completed(cfg, s).candidateCount > 0
    ensures |Text(s)| <= Completed(cfg, s).autocompletedLen <= |Completed(cfg, s).firstCandidate|
  {
    Completion.CommonExtends(Names(cfg.bindings), Text(s));
  }

  lemma CompletedTextIs(cfg: Config, s: Line)
    requires GoodConfig(cfg) && GoodLine(cfg, Text(s)) && Completed(cfg, s).candidateCount > 0
    ensures var cmd := Completed(cfg, s);
            && cmd.autocompletedLen <= |cmd.firstCandidate|
            && CompletedText(cfg, s) ==
               cmd.firstCandidate[..cmd.autocompletedLen] + if cmd.candidateCount == 1 then [' '] else []
    ensures GoodLine(cfg, CompletedText(cfg, s)) && |s.left| <= |CompletedText(cfg, s)|
  {
    CompletionShows(cfg, s);
    SuffixFits(cfg, s);
  }

  lemma NothingLeft(s: Line)
    requires |s.left| == 0
    ensures MoveLeft(s) == s
  {
  }

  lemma EnterIs(cfg: Config, s: Line)
    ensures var p := Parse(cfg, AutocompleteRequest(cfg, s));
            Enter(cfg, s) == Line([], [], p.items, 0, 0, s.lastChar, s.escapeMode, p.calls)
  {
  }

  lemma RegroupComplaint(o: string, a: string, b: string, c: string, d: string)
    ensures o + (a + b + c + d) == o + a + b + c + d
  {
  }

  lemma ListingNone(names: seq<string>, text: string)
    ensures Listing(Completion.Candidates(names[..0], text)) == []
  {
    assert names[..0] == [];
  }

  lemma ListingMore(names: seq<string>, name: string)
    ensures Listing(names + [name]) == Listing(names) + name + LINE_BREAK
  {
    assert (names + [name])[..|names|] == names;
  }

  lemma RegroupThree(o: string, a: string, b: string, c: string)
    ensures o + (a + (b + c)) == o + a + b + c
  {
  }

  // ----- a command's arguments in the buffer -----

  ghost predicate Terminated(buf: string, at: nat) {
    exists j :: at <= j < |buf| && buf[j] == '\0'
  }

  /** What a binding finds at the pointer to its arguments, which is negative for NULL. */
  ghost predicate ArgsHeld(buf: string, at: int, args: Args) {
    match args
    case NoArgs => at < 0
    case Raw(text) => 0 <= at && Terminated(buf, at) && TextAt(buf, at) == text
    case Tokenized(tokens) => 0 <= at <= |buf| && HoldsTokens(buf[at..], tokens)
  }

  lemma ArgsText(buf: string, at: int, args: Args)
    requires ArgsHeld(buf, at, args) && at >= 0
    ensures Terminated(buf, at) && TextAt(buf, at) == FirstText(args)
  {
    if args.Tokenized? {
      var s, tokens := buf[at..], args.tokens;
      var n := |Pack(tokens)|;
      assert (Pack(tokens) + ['\0'])[n] == s[n] == buf[at + n];
      Tokenizer.ShiftedText(buf, at, 0);
      FirstToken(s, tokens);
    }
  }

  lemma FirstToken(s: string, tokens: seq<string>)
    requires HoldsTokens(s, tokens)
    ensures TextAt(s, 0) == if tokens == [] then [] else tokens[0]
  {
    if tokens == [] {
      assert (Pack(tokens) + ['\0'])[0] == s[0];
    } else {
      StartOffset(tokens);
      ItemText(s, tokens, 0);
    }
  }

  // ----- changes of the command buffer -----

  lemma Solid(a: string, b: string)
    requires NoZero(a) && NoZero(b)
    ensures NoZero(a + b)
  {
  }

  lemma Apart(a: string, b: string)
    requires NoZero(a + b)
    ensures NoZero(a) && NoZero(b)
  {
    assert forall i :: 0 <= i < |a| ==> a[i] == (a + b)[i];
    assert forall i :: 0 <= i < |b| ==> b[i] == (a + b)[|a| + i];
  }

  /** A character put in front of the `size - pos` characters right of the cursor. */
  method InsertChar(buf: array<char>, pos: nat, size: nat, c: char)
    requires pos <= size && size + 1 < buf.Length && buf[size] == '\0' && c != '\0'
    requires NoZero(buf[..size])
    modifies buf
    ensures buf[..pos + 1] == old(buf[..pos]) + [c] && buf[pos + 1..size + 1] == old(buf[pos..size])
            && buf[size + 1] == '\0'
    ensures NoZero(buf[..size + 1])
  {
    ghost var left, moved := buf[..pos], buf[pos..size + 1];
    assert buf[..size] == left + moved[..size - pos];
    Apart(left, moved[..size - pos]);
    History.Move(buf, pos + 1, pos, size - pos + 1);
    assert buf[pos + 1..pos + 1 + (size - pos + 1)] == moved;
    assert buf[size + 1] == moved[size - pos];
    assert buf[pos + 1..size + 1] == moved[..size - pos];
    buf[pos] := c;
    Solid(left, [c] + moved[..size - pos]);
    assert buf[..size + 1] == left + ([c] + moved[..size - pos]);
  }

  /** The character before the cursor removed. */
  method RemoveChar(buf: array<char>, pos: nat, size: nat)
    requires 0 < pos <= size < buf.Length && buf[size] == '\0'
    requires NoZero(buf[..size])
    modifies buf
    ensures buf[..pos - 1] == old(buf[..pos - 1]) && buf[pos - 1..size - 1] == old(buf[pos..size])
            && buf[size - 1] == '\0'
    ensures NoZero(buf[..size - 1])
  {
    ghost var left, moved := buf[..pos - 1], buf[pos..size + 1];
    assert buf[..size] == left + ([buf[pos - 1]] + moved[..size - pos]);
    Apart(left, [buf[pos - 1]] + moved[..size - pos]);
    Apart([buf[pos - 1]], moved[..size - pos]);
    History.Move(buf, pos - 1, pos, size - pos + 1);
    assert buf[pos - 1..pos - 1 + (size - pos + 1)] == moved;
    assert buf[size - 1] == moved[size - pos];
    assert buf[pos - 1..size - 1] == moved[..size - pos];
    Solid(left, moved[..size - pos]);
    assert buf[..size - 1] == left + moved[..size - pos];
  }

  /** A text with its terminator copied to the start of the buffer. */
  method StoreText(buf: array<char>, text: string)
    requires |text| < buf.Length
    modifies buf
    ensures buf[..|text|] == text && buf[|text|] == '\0'
  {
    forall i | 0 <= i < |text| {
      buf[i] := text[i];
    }
    buf[|text|] := '\0';
  }

  class Cli {
    const cfg: Config
    const cmdBuffer: array<char>
    const bindingsFlags: array<bool>
    const history: History.CliHistory
    const rxBuffer: Fifo.FifoBuf
    var cmdSize: nat
    var cursorPos: nat
    var inputLineLength: nat
    var lastChar: char
    var escapeMode: bool
    var initComplete: bool
    var overflow: bool
    /** The calls made to the bindings, and everything written so far. */
    ghost var calls: seq<Call>
    ghost var output: string

    /** embeddedCliNew, with the binding of the help command already among the bindings. */
    constructor (config: Config, rxBufferSize: nat)
      requires GoodConfig(config) && 1 < rxBufferSize < 0x1_0000
      ensures cfg == config && Ready() && View() == START && !initComplete && output == []
      ensures Idle() && fresh(cmdBuffer) && fresh(bindingsFlags) && fresh(history) && fresh(history.buf)
              && fresh(rxBuffer) && fresh(rxBuffer.buf)
    {
      hide Sound, GoodConfig;
      cfg := config;
      cmdBuffer := new char[config.cmdMaxSize](_ => '\0');
      bindingsFlags := new bool[|config.bindings|](_ => false);
      history := new History.CliHistory(config.historySize);
      rxBuffer := new Fifo.FifoBuf(rxBufferSize);
      cmdSize, cursorPos, inputLineLength, lastChar := 0, 0, 0, '\0';
      escapeMode, initComplete, overflow := false, false, false;
      calls, output := [], [];
      new;
      StartSound(config);
      assert View() == START;
    }

    /** Nothing is queued between two calls, and no character has ever been lost. */
    ghost predicate Idle()
      reads this, rxBuffer, rxBuffer.buf
    {
      && !overflow && rxBuffer.Valid() && rxBuffer.buf.Length > 1 && rxBuffer.Contents() == []
      && rxBuffer.buf != cmdBuffer && rxBuffer.buf != history.buf
    }

    ghost predicate Shape()
      reads this`cmdSize, this`cursorPos, cmdBuffer, history`itemsCount, history`items, history.buf
    {
      && cmdBuffer.Length == cfg.cmdMaxSize && bindingsFlags.Length >= |cfg.bindings|
      && history.buf.Length == cfg.historySize && cmdBuffer != history.buf && history.Valid()
      && cursorPos <= cmdSize < cmdBuffer.Length && cmdBuffer[cmdSize] == '\0'
      && NoZero(cmdBuffer[..cmdSize])
    }

    /** The abstract line: the buffer's text divided at the cursor. */
    ghost function View(): Line
      requires Shape()
      reads this`cmdSize, this`cursorPos, this`inputLineLength, this`lastChar, this`escapeMode, this`calls
      reads cmdBuffer, history`itemsCount, history`items, history`current, history.buf
    {
      Line(cmdBuffer[..cmdSize - cursorPos], cmdBuffer[cmdSize - cursorPos..cmdSize], history.items, history.current,
           inputLineLength, lastChar, escapeMode, calls)
    }

    ghost predicate Ready()
      reads this, cmdBuffer, history, history.buf
    {
      GoodConfig(cfg) && Shape() && Sound(cfg, View())
    }

    lemma ViewText()
      requires Shape()
      ensures Text(View()) == cmdBuffer[..cmdSize]
    {
    }

    // ----- output -----

    method WriteChar(c: char)
      modifies this`output
      ensures output == old(output) + [c]
    {
      output := output + [c];
    }

    method WriteToOutput(str: string)
      modifies this`output
      ensures output == old(output) + str
    {
      for i := 0 to |str|
        invariant output == old(output) + str[..i]
      {
        assert str[..i + 1] == str[..i] + [str[i]];
        WriteChar(str[i]);
      }
      assert str[..|str|] == str;
    }

    method WriteSpaces(n: nat)
      modifies this`output
      ensures output == old(output) + Spaces(n)
    {
      for i := 0 to n
        invariant output == old(output) + Spaces(i)
      {
        assert Spaces(i + 1) == Spaces(i) + [' '];
        WriteChar(' ');
      }
    }

    /** strlen of the command from an index on. */
    method TextLength(start: nat) returns (n: nat)
      requires Shape() && start <= cmdSize
      ensures n == cmdSize - start
    {
      n := StrLen(cmdBuffer, start);
    }

    /** The command from an index on, as a C string. */
    method WriteCommand(start: nat)
      requires Shape() && start <= cmdSize
      modifies this`output
      ensures output == old(output) + cmdBuffer[start..cmdSize]
    {
      var n := TextLength(start);
      for i := 0 to n
        invariant output == old(output) + cmdBuffer[start..start + i]
      {
        assert cmdBuffer[start..start + i + 1] == cmdBuffer[start..start + i] + [cmdBuffer[start + i]];
        WriteChar(cmdBuffer[start + i]);
      }
    }

    method MoveCursor(count: nat, final: char)
      modifies this`output
      ensures output == old(output) + Move(count, final)
    {
      if count == 0 {
        return;
      }
      WriteToOutput(Move(count, final));
    }

    /** clearCurrentLine. */
    method ClearCurrentLine()
      requires Shape()
      modifies this`output, this`inputLineLength, this`cursorPos
      ensures inputLineLength == 0 && cursorPos == 0
      ensures output == old(output) + ClearOutput(cfg, old(View()))
    {
      var len := inputLineLength + |cfg.invitation|;
      WriteChar('\r');
      WriteSpaces(len);
      WriteChar('\r');
      inputLineLength := 0;
      cursorPos := 0;
    }

    // ----- completion -----

    /** The output of a live completion, with the cursor back where it was. */
    method WriteCompletion(suffix: string, blanks: nat)
      modifies this`output
      ensures output == old(output) + ScreenRow.Refresh(cursorPos, suffix, blanks)
    {
      RegroupFive(output, Simple('s'), Move(cursorPos, 'C'), suffix, Spaces(blanks), Simple('u'));
      WriteToOutput(Simple('s'));
      MoveCursor(cursorPos, 'C');
      WriteToOutput(suffix);
      WriteSpaces(blanks);
      WriteToOutput(Simple('u'));
    }

    /** The part of the completion that is not typed yet, and the length of the whole shown line. */
    method LiveSuffix() returns (suffix: string, shown: nat)
      requires Shape()
      modifies bindingsFlags
      ensures shown == ShownLength(cfg, View()) && suffix == Suffix(cfg, View())
    {
      hide Completed;
      ViewText();
      var cmd := GetCompletion();
      if cmd.candidateCount == 0 {
        return [], cmdSize;
      }
      CompletionInside(cfg, View());
      return cmd.firstCandidate[cmdSize..cmd.autocompletedLen], cmd.autocompletedLen;
    }

    /** printLiveAutocompletion. */
    method PrintLiveAutocompletion()
      requires Shape()
      modifies this`output, this`inputLineLength, bindingsFlags
      ensures Shape() && View() == Live(cfg, old(View()))
      ensures output == old(output) + LiveOutput(cfg, old(View()))
    {
      hide ShownLength, Suffix, ScreenRow.Refresh;
      var suffix, n := LiveSuffix();
      assert |View().right| == cursorPos;
      WriteCompletion(suffix, if n < inputLineLength then inputLineLength - n else 0);
      inputLineLength := n;
    }

    /** getAutocompletedCommand for the command in the buffer. */
    method GetCompletion() returns (cmd: Completion.Completed)
      requires Shape()
      modifies bindingsFlags
      ensures cmd == Completed(cfg, View())
      ensures cmd.candidateCount > 0 ==>
                forall i :: 0 <= i < |cfg.bindings| ==>
                    (bindingsFlags[i] <==> cmdBuffer[..cmdSize] <= cfg.bindings[i].name)
    {
      ViewText();
      var n := TextLength(0);
      cmd := Completion.GetAutocompletedCommand(Names(cfg.bindings), cmdBuffer[..n], cmdSize, bindingsFlags);
    }

    /** onAutocompleteRequest. */
    method OnAutocompleteRequest()
      requires Shape() && GoodConfig(cfg) && GoodLine(cfg, Text(View()))
      modifies this`output, this`inputLineLength, this`cmdSize, this`cursorPos, cmdBuffer, bindingsFlags
      ensures Shape() && View() == AutocompleteRequest(cfg, old(View()))
      ensures output == old(output) + CompleteOutput(cfg, old(View()))
    {
      ViewText();
      var cmd := GetCompletion();
      if cmd.candidateCount == 0 {
        return;
      }
      if cmd.candidateCount == 1 || cmd.autocompletedLen > cmdSize {
        FillIn(cmd);
      } else {
        ListCandidates();
      }
    }

    /** The common part of the candidates copied into the buffer, and printed from the cursor on. */
    method FillIn(cmd: Completion.Completed)
      requires Shape() && GoodConfig(cfg) && GoodLine(cfg, Text(View()))
      requires cmd == Completed(cfg, View()) && cmd.candidateCount > 0
      modifies this`output, this`inputLineLength, this`cmdSize, this`cursorPos, cmdBuffer
      ensures Shape() && View() == WithText(old(View()), CompletedText(cfg, old(View())))
      ensures output == old(output) + CompletedText(cfg, old(View()))[|old(View()).left|..]
    {
      hide CompletedText, Completed, GoodConfig;
      CompletedTextIs(cfg, View());
      var text := cmd.firstCandidate[..cmd.autocompletedLen] + if cmd.candidateCount == 1 then [' '] else [];
      assert text == CompletedText(cfg, View());
      WriteToOutput(text[cmdSize - cursorPos..]);
      ReplaceText(text);
    }

    method ReplaceText(text: string)
      requires Shape() && |text| < cfg.cmdMaxSize && NoZero(text)
      modifies this`inputLineLength, this`cmdSize, this`cursorPos, cmdBuffer
      ensures Shape() && View() == WithText(old(View()), text)
    {
      StoreText(cmdBuffer, text);
      cmdSize := |text|;
      inputLineLength := cmdSize;
      cursorPos := 0;
    }

    /** All candidates listed below each other, and the line printed again. */
    method ListCandidates()
      requires Shape() && forall i :: 0 <= i < |cfg.bindings| ==>
               (bindingsFlags[i] <==> Text(View()) <= cfg.bindings[i].name)
      modifies this`output, this`inputLineLength, this`cursorPos
      ensures Shape() && View() == WithText(old(View()), Text(old(View())))
      ensures output == old(output)
              + (ClearOutput(cfg, old(View()))
              + (Listing(Candidates(cfg, old(View()))) + (cfg.invitation + Text(old(View())))))
    {
      RegroupFour(output, ClearOutput(cfg, View()), Listing(Candidates(cfg, View())), cfg.invitation, Text(View()));
      ViewText();
      ghost var text := Text(View());
      ClearCurrentLine();
      ListNames(text);
      WriteToOutput(cfg.invitation);
      WriteCommand(0);
      inputLineLength := cmdSize;
    }

    method ListNames(ghost text: string)
      requires bindingsFlags.Length >= |cfg.bindings|
      requires forall i :: 0 <= i < |cfg.bindings| ==> (bindingsFlags[i] <==> text <= cfg.bindings[i].name)
      modifies this`output
      ensures output == old(output) + Listing(Completion.Candidates(Names(cfg.bindings), text))
    {
      hide Listing, Completion.Candidates;
      ghost var names := Names(cfg.bindings);
      ListingNone(names, text);
      for i := 0 to |cfg.bindings|
        invariant output == old(output) + Listing(Completion.Candidates(names[..i], text))
      {
        Completion.CandidatesNext(names, text, i);
        ListingMore(Completion.Candidates(names[..i], text), names[i]);
        if bindingsFlags[i] {
          WriteToOutput(cfg.bindings[i].name);
          WriteToOutput(LINE_BREAK);
        }
      }
      assert names[..|cfg.bindings|] == names;
    }

    // ----- typing -----

    /** onCharInput. */
    method OnCharInput(c: char)
      requires Shape() && c != '\0'
      modifies this`output, this`inputLineLength, this`cmdSize, cmdBuffer
      ensures Shape() && View() == CharInput(cfg, old(View()), c)
      ensures output == old(output) + CharOutput(cfg, old(View()), c)
    {
      hide Simple, NoZero, History.CliHistory.Valid;
      ViewText();
      if cmdSize + 2 >= cmdBuffer.Length {
        return;
      }
      assert |View().right| == cursorPos;
      StoreChar(c);
      WriteTyped(c);
    }

    method StoreChar(c: char)
      requires Shape() && c != '\0' && cmdSize + 2 < cmdBuffer.Length
      modifies this`inputLineLength, this`cmdSize, cmdBuffer
      ensures Shape()
      ensures View() == old(View()).(left := old(View()).left + [c], inputLineLength := old(inputLineLength) + 1)
    {
      hide NoZero, History.CliHistory.Valid;
      var len := TextLength(0);
      var insertPos := len - cursorPos;
      InsertChar(cmdBuffer, insertPos, cmdSize, c);
      cmdSize := cmdSize + 1;
      inputLineLength := inputLineLength + 1;
    }

    /** A typed character, with room made for it when it is not the last one. */
    method WriteTyped(c: char)
      modifies this`output
      ensures output == old(output) + if cursorPos > 0 then Simple('@') + [c] else [c]
    {
      if cursorPos > 0 {
        WriteToOutput(Simple('@'));
      }
      WriteChar(c);
    }

    /** The branch of onControlInput for backspace and delete. */
    method OnErase()
      requires Shape()
      modifies this`output, this`cmdSize, cmdBuffer
      ensures Shape() && View() == Erase(old(View()))
      ensures output == old(output) + EraseOutput(old(View()))
    {
      if cmdSize - cursorPos > 0 {
        WriteErase();
        EraseChar();
      }
    }

    method WriteErase()
      modifies this`output
      ensures output == old(output) + (Simple('D') + Simple('P'))
    {
      WriteToOutput(Simple('D'));
      WriteToOutput(Simple('P'));
    }

    method EraseChar()
      requires Shape() && cmdSize > cursorPos
      modifies this`cmdSize, cmdBuffer
      ensures Shape() && View() == Erase(old(View()))
    {
      var len := TextLength(0);
      ghost var left := cmdBuffer[..cmdSize - cursorPos];
      assert left[..|left| - 1] == cmdBuffer[..cmdSize - cursorPos - 1];
      RemoveChar(cmdBuffer, len - cursorPos, cmdSize);
      cmdSize := cmdSize - 1;
    }

    // ----- escape sequences -----

    /** Every command of the history fits into the buffer. */
    ghost predicate Loadable()
      reads history`items
    {
      cfg.cmdMaxSize > 0 && forall k :: 0 <= k < |history.items| ==> |history.items[k]| < cfg.cmdMaxSize
    }

    /** The command at a history position, or an empty one, brought into the buffer. */
    method LoadItem(current: nat)
      requires Shape() && Loadable() && current <= |history.items|
      modifies this`inputLineLength, this`cmdSize, this`cursorPos, cmdBuffer, history`current
      ensures Shape() && View() == Load(old(View()), current)
    {
      var item := HistoryItem(current);
      history.current := current;
      ReplaceText(item);
    }

    method HistoryItem(current: nat) returns (item: string)
      requires Shape() && Loadable() && current <= |history.items|
      ensures item == Loaded(View(), current) && |item| < cfg.cmdMaxSize && NoZero(item)
    {
      var found, at, len := history.Get(current);
      item := if found then history.buf[at..at + len] else [];
    }

    /** The current line cleared and the command at a history position printed instead. */
    method ReplaceLine(current: nat)
      requires Shape() && Loadable() && current <= |history.items|
      modifies this`output, this`inputLineLength, this`cmdSize, this`cursorPos, cmdBuffer, history`current
      ensures Shape() && View() == Load(old(View()), current)
      ensures output == old(output) + LoadOutput(cfg, old(View()), current)
    {
      RegroupThree(output, ClearOutput(cfg, View()), cfg.invitation, Loaded(View(), current));
      ClearCurrentLine();
      WriteToOutput(cfg.invitation);
      LoadItem(current);
      WriteToOutput(cmdBuffer[..cmdSize]);
    }

    method NavigateTo(current: nat)
      requires Shape() && Loadable() && current <= |history.items|
      modifies this`output, this`inputLineLength, this`cmdSize, this`cursorPos, cmdBuffer, bindingsFlags,
               history`current
      ensures Shape() && View() == Live(cfg, Load(old(View()), current))
      ensures output == old(output)
              + (LoadOutput(cfg, old(View()), current) + LiveOutput(cfg, Load(old(View()), current)))
    {
      hide LiveOutput, LoadOutput, Live, Load;
      ReplaceLine(current);
      PrintLiveAutocompletion();
    }

    /** navigateHistory. */
    method NavigateHistory(up: bool)
      requires Shape() && Loadable() && history.current <= |history.items|
      modifies this`output, this`inputLineLength, this`cmdSize, this`cursorPos, cmdBuffer, bindingsFlags,
               history`current
      ensures Shape() && View() == Navigate(cfg, old(View()), up)
      ensures output == old(output) + NavigateOutput(cfg, old(View()), up)
    {
      hide LiveOutput, LoadOutput, Live, Load;
      if history.itemsCount == 0 || (up && history.current == history.itemsCount) || (!up && history.current == 0) {
        assert AtHistoryEnd(View(), up);
        return;
      }
      assert !AtHistoryEnd(View(), up);
      NavigateTo(if up then history.current + 1 else history.current - 1);
    }

    method StepRight()
      requires Shape() && cursorPos > 0
      modifies this`output, this`cursorPos
      ensures Shape() && View() == MoveRight(old(View())) && output == old(output) + Simple('C')
    {
      ghost var s := View();
      cursorPos := cursorPos - 1;
      WriteToOutput(Simple('C'));
      assert View().left == s.left + [s.right[0]];
      assert View().right == s.right[1..];
    }

    method StepLeft()
      requires Shape() && cursorPos < cmdSize
      modifies this`output, this`cursorPos
      ensures Shape() && View() == MoveLeft(old(View())) && output == old(output) + Simple('D')
    {
      ghost var s := View();
      ghost var n := |s.left| - 1;
      cursorPos := cursorPos + 1;
      WriteToOutput(Simple('D'));
      assert View().left == s.left[..n];
      assert View().right == [s.left[n]] + s.right;
    }

    /** The branches of onEscapedInput for the cursor keys. */
    method OnCursorKey(c: char)
      requires Shape() && c != 'A' && c != 'B'
      modifies this`output, this`cursorPos
      ensures Shape()
      ensures View() ==
              if c == 'C' then MoveRight(old(View())) else if c == 'D' then MoveLeft(old(View())) else old(View())
      ensures output == old(output) + EscapedOutput(cfg, old(View()), c)
    {
      hide NavigateOutput, Simple, MoveRight, MoveLeft;
      assert |View().right| == cursorPos && |View().left| == cmdSize - cursorPos;
      if c == 'C' {
        OnRight();
      } else if c == 'D' {
        OnLeft();
      }
    }

    method OnRight()
      requires Shape()
      modifies this`output, this`cursorPos
      ensures Shape() && View() == MoveRight(old(View()))
      ensures old(cursorPos) > 0 ==> output == old(output) + Simple('C')
      ensures old(cursorPos) == 0 ==> output == old(output)
    {
      if cursorPos > 0 {
        StepRight();
      }
    }

    method OnLeft()
      requires Shape()
      modifies this`output, this`cursorPos
      ensures Shape() && View() == MoveLeft(old(View()))
      ensures old(cursorPos) < cmdSize ==> output == old(output) + Simple('D')
      ensures old(cursorPos) >= cmdSize ==> output == old(output)
    {
      hide MoveLeft, Simple, NoZero;
      var len := TextLength(0);
      if cursorPos >= len {
        NothingLeft(View());
        return;
      }
      StepLeft();
    }

    /** onEscapedInput. */
    method OnEscapedInput(c: char)
      requires Shape() && Loadable() && history.current <= |history.items|
      modifies this`output, this`inputLineLength, this`cmdSize, this`cursorPos, this`escapeMode, cmdBuffer,
               bindingsFlags, history`current
      ensures Shape() && View() == EscapedInput(cfg, old(View()), c)
      ensures output == old(output) + EscapedOutput(cfg, old(View()), c)
    {
      hide NavigateOutput, Navigate, MoveRight, MoveLeft;
      if '@' <= c <= '~' {
        EscapeOff();
        if c == 'A' || c == 'B' {
          NavigateHistory(c == 'A');
        } else {
          OnCursorKey(c);
        }
      }
    }

    method EscapeOff()
      requires Shape()
      modifies this`escapeMode
      ensures Shape() && View() == old(View()).(escapeMode := false)
    {
      escapeMode := false;
    }

    // ----- running a command -----

    /** The test of parseCommand for a line of spaces only. */
    method IsEmpty() returns (isEmpty: bool)
      requires Shape()
      ensures isEmpty <==> AllSpaces(Text(View()))
    {
      ViewText();
      for i := 0 to cmdSize
        invariant forall j :: 0 <= j < i ==> cmdBuffer[j] == ' '
      {
        if cmdBuffer[i] != ' ' {
          assert Text(View())[i] == cmdBuffer[i];
          return false;
        }
      }
      return true;
    }

    /**
     parseCommand: the line goes to the history before the buffer is taken apart. What is left
     in the buffer is not a line any more; the caller empties it.
     */
    method ParseCommand()
      requires Shape() && GoodConfig(cfg) && GoodLine(cfg, Text(View()))
      modifies this`output, this`calls, cmdBuffer, history`itemsCount, history`items, history.buf
      ensures history.Valid() && history.items == Parse(cfg, old(View())).items
              && calls == Parse(cfg, old(View())).calls
      ensures output == old(output) + ParseOutput(cfg, old(View()))
    {
      ViewText();
      var isEmpty := IsEmpty();
      if isEmpty {
        return;
      }
      var line := cmdBuffer[..cmdSize];
      var _ := history.Put(line);
      RunLine(line);
    }

    /** The line taken apart in the buffer, and its command looked up and run. */
    method RunLine(ghost line: string)
      requires Shape() && GoodLine(cfg, line) && line == cmdBuffer[..cmdSize] && !AllSpaces(line)
      modifies this`output, this`calls, cmdBuffer
      ensures calls == old(calls) + [Called(cfg, line)] && output == old(output) + Answer(cfg, calls)
    {
      var cmdName, cmdArgs;
      ghost var p;
      cmdName, cmdArgs, p := CommandParts.FindParts(cmdBuffer, cmdSize, line);
      cmdBuffer[cmdSize + 1] := '\0';
      CommandParts.NotBlank(line, p);
      CommandParts.PartsHeld(line, p, cmdBuffer[..]);
      if cmdArgs >= 0 {
        CommandParts.ScannedParts(line, p);
      }
      Execute(cmdName, cmdArgs, line);
    }

    /** The lookup and the call at the end of parseCommand. */
    method Execute(cmdName: nat, cmdArgs: int, ghost line: string)
      requires cmdName < cmdSize == |line| && cmdSize + 1 < cmdBuffer.Length && cmdBuffer[cmdSize] == '\0'
      requires TextAt(cmdBuffer[..], cmdName) == CommandName(line) && RestHeld(cmdArgs, CommandRest(line))
      modifies this`output, this`calls, cmdBuffer
      ensures calls == old(calls) + [Called(cfg, line)] && output == old(output) + Answer(cfg, calls)
    {
      hide ArgsHeld, CommandName, CommandRest;
      assert cmdBuffer[..][cmdSize] == '\0';
      var k := FindBinding(cmdName, CommandName(line));
      if k < |cfg.bindings| && cfg.bindings[k].runs {
        PrepareArgs(cfg.bindings[k].tokenizeArgs, cmdArgs, CommandRest(line));
        CallBinding(k, cmdArgs, ArgsFor(cfg.bindings[k].tokenizeArgs, CommandRest(line)));
      } else {
        RunDefault(cmdName, cmdArgs, line);
      }
    }

    /** The default callback gets name and arguments as they stand in the buffer; without one the name is reported. */
    method RunDefault(cmdName: nat, cmdArgs: int, ghost line: string)
      requires cmdName < cmdSize == |line| && cmdSize + 1 < cmdBuffer.Length && cmdBuffer[cmdSize] == '\0'
      requires TextAt(cmdBuffer[..], cmdName) == CommandName(line) && RestHeld(cmdArgs, CommandRest(line))
      modifies this`output, this`calls, cmdBuffer
      ensures calls == old(calls) + [Unbound(cfg.onCommand, CommandName(line), CommandRest(line))]
      ensures output == old(output) + Answer(cfg, calls)
    {
      hide CommandName, CommandRest, ArgsHeld;
      assert cmdBuffer[..][cmdSize] == '\0';
      if cfg.onCommand {
        PrepareArgs(false, cmdArgs, CommandRest(line));
        OnCommand(cmdName, cmdArgs, CommandName(line), ArgsFor(false, CommandRest(line)));
      } else {
        OnUnknownCommand(cmdName, CommandName(line));
      }
    }

    /** The default callback: like a binding's function, it finds what it needs in the buffer. */
    method OnCommand(cmdName: nat, cmdArgs: int, ghost name: string, ghost args: Args)
      requires TextAt(cmdBuffer[..], cmdName) == name && ArgsHeld(cmdBuffer[..], cmdArgs, args)
      modifies this`output, this`calls
      ensures calls == old(calls) + [Default(name, args)] && output == old(output) + cfg.reply(calls)
    {
      calls := calls + [Default(name, args)];
      output := output + cfg.reply(calls);
    }

    /**
     The rest of the line behind the name stands at the argument pointer, which is negative for
     NULL when there is none.
     */
    ghost predicate RestHeld(cmdArgs: int, rest: string)
      reads this`cmdSize, cmdBuffer
    {
      && cmdSize < cmdBuffer.Length && -1 <= cmdArgs < cmdSize && (cmdArgs < 0 <==> rest == [])
      && (cmdArgs >= 0 ==> cmdBuffer[cmdArgs..cmdSize] == rest && TextAt(cmdBuffer[..], cmdArgs) == rest)
      && NoZero(rest)
    }

    /** The arguments split into tokens in place, if the binding wants them so. */
    method PrepareArgs(tokenizeArgs: bool, cmdArgs: int, ghost rest: string)
      requires cmdSize + 1 < cmdBuffer.Length && cmdBuffer[cmdSize] == '\0' && RestHeld(cmdArgs, rest)
      modifies cmdBuffer
      ensures ArgsHeld(cmdBuffer[..], cmdArgs, ArgsFor(tokenizeArgs, rest))
      ensures !tokenizeArgs ==> cmdBuffer[..] == old(cmdBuffer[..])
    {
      if cmdArgs >= 0 {
        assert forall j :: 0 <= j < |rest| ==> cmdBuffer[cmdArgs + j] == cmdBuffer[cmdArgs..cmdSize][j];
        if tokenizeArgs {
          Tokenizer.TokenizeArgs(cmdBuffer, cmdArgs, rest);
          assert cmdBuffer[..][cmdArgs..] == cmdBuffer[cmdArgs..];
        } else {
          assert cmdBuffer[..][cmdSize] == '\0';
        }
      }
    }

    /** The search of parseCommand among the bindings. */
    method FindBinding(cmdName: nat, ghost name: string) returns (k: nat)
      requires cmdName < cmdBuffer.Length && Terminated(cmdBuffer[..], cmdName)
               && TextAt(cmdBuffer[..], cmdName) == name
      ensures k == Lookup(cfg.bindings, name)
    {
      k := 0;
      while k < |cfg.bindings|
        invariant 0 <= k <= |cfg.bindings| && forall i :: 0 <= i < k ==> cfg.bindings[i].name != name
      {
        var same := SameText(cmdName, cfg.bindings[k].name);
        if same {
          return;
        }
        k := k + 1;
      }
    }

    /** strcmp with a text in the command buffer. */
    method SameText(at: nat, str: string) returns (same: bool)
      requires at < cmdBuffer.Length && Terminated(cmdBuffer[..], at)
      ensures same <==> TextAt(cmdBuffer[..], at) == str
    {
      ghost var j :| at <= j < |cmdBuffer[..]| && cmdBuffer[..][j] == '\0';
      assert cmdBuffer[j] == '\0';
      same := Equals(cmdBuffer, at, str);
    }

    /** Whether the first argument asks for help. */
    method HelpRequested(cmdArgs: int, ghost args: Args) returns (asked: bool)
      requires cmdArgs < cmdBuffer.Length && ArgsHeld(cmdBuffer[..], cmdArgs, args)
      ensures asked <==> AsksForHelp(args)
    {
      if cmdArgs < 0 {
        return false;
      }
      ArgsText(cmdBuffer[..], cmdArgs, args);
      asked := SameText(cmdArgs, "-h");
      if !asked {
        asked := SameText(cmdArgs, "--help");
      }
    }

    /** The binding's help or its function, whichever is asked for. */
    method CallBinding(k: nat, cmdArgs: int, ghost args: Args)
      requires k < |cfg.bindings| && cmdArgs < cmdBuffer.Length && ArgsHeld(cmdBuffer[..], cmdArgs, args)
      modifies this`output, this`calls
      ensures calls == old(calls) + [if AsksForHelp(args) then HelpFor(k) else Invoke(k, args)]
      ensures output == old(output) + Answer(cfg, calls)
    {
      var asked := HelpRequested(cmdArgs, args);
      if asked {
        calls := calls + [HelpFor(k)];
        PrintBindingHelp(k);
      } else {
        RunBinding(k, cmdArgs, args);
      }
    }

    /**
     The binding's own function: it finds its arguments in the buffer, and prints what the
     environment makes it print.
     */
    method RunBinding(k: nat, cmdArgs: int, ghost args: Args)
      requires ArgsHeld(cmdBuffer[..], cmdArgs, args)
      modifies this`output, this`calls
      ensures calls == old(calls) + [Invoke(k, args)] && output == old(output) + cfg.reply(calls)
    {
      calls := calls + [Invoke(k, args)];
      output := output + cfg.reply(calls);
    }

    /** printBindingHelp. */
    method PrintBindingHelp(k: nat)
      requires k < |cfg.bindings|
      modifies this`output
      ensures output == old(output) + HelpText(cfg.bindings[k].help)
    {
      if cfg.bindings[k].help.Some? {
        WriteChar('\t');
        WriteToOutput(cfg.bindings[k].help.value);
        WriteToOutput(LINE_BREAK);
      }
    }

    /** A C string in the command buffer. */
    method WriteText(at: nat)
      requires at < cmdBuffer.Length && Terminated(cmdBuffer[..], at)
      modifies this`output
      ensures output == old(output) + TextAt(cmdBuffer[..], at)
    {
      ghost var j :| at <= j < |cmdBuffer[..]| && cmdBuffer[..][j] == '\0';
      assert cmdBuffer[j] == '\0';
      var n := StrLen(cmdBuffer, at);
      WriteToOutput(cmdBuffer[at..at + n]);
    }

    /** onUnknownCommand. */
    method OnUnknownCommand(cmdName: nat, ghost name: string)
      requires cmdName < cmdBuffer.Length && Terminated(cmdBuffer[..], cmdName)
               && TextAt(cmdBuffer[..], cmdName) == name
      modifies this`output, this`calls
      ensures calls == old(calls) + [Unknown(name)] && output == old(output) + Complaint(name)
    {
      hide Terminated, TextAt;
      calls := calls + [Unknown(name)];
      RegroupComplaint(output, COMPLAINT_START, name, COMPLAINT_END, LINE_BREAK);
      WriteToOutput(COMPLAINT_START);
      WriteText(cmdName);
      WriteToOutput(COMPLAINT_END);
      WriteToOutput(LINE_BREAK);
    }

    // ----- every character -----

    /** The branch of onControlInput for a line break. */
    method OnEnter()
      requires Ready()
      modifies this`output, this`inputLineLength, this`cmdSize, this`cursorPos, this`calls, cmdBuffer, bindingsFlags
      modifies history`itemsCount, history`items, history`current, history.buf
      ensures Shape() && View() == Enter(cfg, old(View()))
      ensures output == old(output) + EnterOutput(cfg, old(View()))
    {
      hide AutocompleteRequest, CompleteOutput, Parse, ParseOutput;
      ghost var s := View();
      CompleteSound(cfg, s);
      RegroupFour(output, CompleteOutput(cfg, s), LINE_BREAK, ParseOutput(cfg, AutocompleteRequest(cfg, s)),
          cfg.invitation);
      EnterIs(cfg, s);
      OnAutocompleteRequest();
      WriteToOutput(LINE_BREAK);
      ParseNonempty();
      EmptyLine();
      WriteToOutput(cfg.invitation);
    }

    method ParseNonempty()
      requires Shape() && GoodConfig(cfg) && GoodLine(cfg, Text(View()))
      modifies this`output, this`calls, cmdBuffer, history`itemsCount, history`items, history.buf
      ensures history.Valid() && history.items == Parse(cfg, old(View())).items
              && calls == Parse(cfg, old(View())).calls
      ensures output == old(output) + ParseOutput(cfg, old(View()))
    {
      ViewText();
      if cmdSize > 0 {
        ParseCommand();
      }
    }

    method EmptyLine()
      requires history.Valid() && cmdBuffer.Length == cfg.cmdMaxSize > 0 && bindingsFlags.Length >= |cfg.bindings|
      requires history.buf.Length == cfg.historySize && cmdBuffer != history.buf
      modifies this`inputLineLength, this`cmdSize, this`cursorPos, cmdBuffer, history`current
      ensures Shape() && View() == Line([], [], history.items, 0, 0, lastChar, escapeMode, calls)
    {
      cmdSize := 0;
      cmdBuffer[cmdSize] := '\0';
      inputLineLength := 0;
      history.current := 0;
      cursorPos := 0;
    }

    /** onControlInput. */
    method OnControlInput(c: char)
      requires Ready() && IsControl(c)
      modifies this`output, this`inputLineLength, this`cmdSize, this`cursorPos, this`calls, cmdBuffer, bindingsFlags
      modifies history`itemsCount, history`items, history`current, history.buf
      ensures Shape() && View() == ControlInput(cfg, old(View()), c)
      ensures output == old(output) + ControlOutput(cfg, old(View()), c)
    {
      hide Enter, EnterOutput, AutocompleteRequest, CompleteOutput, Erase, EraseOutput, GoodConfig;
      if (lastChar == '\r' && c == '\n') || (lastChar == '\n' && c == '\r') {
        return;
      }
      if c == '\r' || c == '\n' {
        OnEnter();
      } else if c == '\t' {
        OnAutocompleteRequest();
      } else {
        OnErase();
      }
    }

    /** The branches on the received character in the loop of embeddedCliProcess. */
    method OnCharacter(c: char)
      requires Ready()
      modifies this`output, this`inputLineLength, this`cmdSize, this`cursorPos, this`escapeMode, this`calls, cmdBuffer,
               bindingsFlags
      modifies history`itemsCount, history`items, history`current, history.buf
      ensures Shape() && View() == Handle(cfg, old(View()), c)
      ensures output == old(output) + HandleOutput(cfg, old(View()), c)
    {
      hide EscapedInput, EscapedOutput, ControlInput, ControlOutput, CharInput, CharOutput;
      if escapeMode {
        OnEscapedInput(c);
      } else if lastChar == ESC && c == '[' {
        escapeMode := true;
      } else if IsControl(c) {
        OnControlInput(c);
      } else if Printable(c) {
        OnCharInput(c);
      }
    }

    /** One turn of the loop of embeddedCliProcess. */
    method ProcessChar(c: char)
      requires Ready() && Settled(cfg, View())
      modifies this`output, this`inputLineLength, this`cmdSize, this`cursorPos, this`escapeMode, this`lastChar,
               this`calls
      modifies cmdBuffer, bindingsFlags, history`itemsCount, history`items, history`current, history.buf
      ensures Ready() && Settled(cfg, View()) && View() == Process(cfg, old(View()), c)
      ensures output == old(output) + ProcessOutput(cfg, old(View()), c)
    {
      hide Handle, HandleOutput, Live, LiveOutput, Sound, Settled, GoodConfig;
      ProcessSound(cfg, View(), c);
      OnCharacter(c);
      PrintLiveAutocompletion();
      lastChar := c;
    }

    /** What is left of `end`, the line after the queue, when characters had been lost before it. */
    ghost predicate Discarded(end: Line)
      reads this`cmdSize, this`cursorPos, this`inputLineLength, this`lastChar, this`escapeMode, this`calls
      reads cmdBuffer, history`itemsCount, history`items, history`current, history.buf
    {
      && 0 == cmdSize < cmdBuffer.Length && cmdBuffer[0] == '\0' && cursorPos == |end.right|
      && history.items == end.items && history.current == end.current
      && inputLineLength == end.inputLineLength && lastChar == end.lastChar && escapeMode == end.escapeMode
      && calls == end.calls
    }

    /**
     embeddedCliProcess: everything queued is handled, and the invitation precedes the output of
     the very first call. When characters were lost, the line is emptied afterwards, but the
     cursor stays: the buffer's shape survives exactly when the cursor stood at the line's end.
     */
    method ProcessQueue()
      requires Ready() && Settled(cfg, View())
      requires rxBuffer.Valid() && rxBuffer.buf != cmdBuffer && rxBuffer.buf != history.buf
      modifies this, cmdBuffer, bindingsFlags, history, history.buf, rxBuffer`front
      ensures initComplete && !overflow && rxBuffer.Valid() && rxBuffer.Contents() == []
      ensures !old(overflow) ==>
                Ready() && Settled(cfg, View()) && View() == Run(cfg, old(View()), old(rxBuffer.Contents()))
      ensures old(overflow) ==>
                var end := Run(cfg, old(View()), old(rxBuffer.Contents()));
                Discarded(end) && (Shape() <==> end.right == []) && (Ready() <==> end.right == [])
                && (end.right == [] ==> View() == end.(left := []))
      ensures output ==
              RunOutput(cfg, old(View()), old(output) + if old(initComplete) then [] else cfg.invitation,
                        old(rxBuffer.Contents()))
    {
      hide Sound, Settled, GoodConfig, Run, RunOutput, Fifo.Ring, NoZero;
      ghost var s, queue := View(), rxBuffer.Contents();
      if !initComplete {
        initComplete := true;
        WriteToOutput(cfg.invitation);
      }
      ghost var before := output;
      assert before == old(output) + if old(initComplete) then [] else cfg.invitation;
      DrainQueue(s, before, queue);
      if overflow {
        Discard();
      }
    }

    /** The branch for lost characters. */
    method Discard()
      requires Ready()
      modifies this`cmdSize, this`overflow, cmdBuffer
      ensures !overflow && Discarded(old(View()))
      ensures (Shape() <==> old(View()).right == []) && (Ready() <==> old(View()).right == [])
      ensures old(View()).right == [] ==> View() == old(View()).(left := [])
    {
      hide GoodConfig, GoodHistory, Fifo.Ring;
      ghost var end := View();
      cmdSize := 0;
      cmdBuffer[cmdSize] := '\0';
      overflow := false;
      if end.right == [] {
        assert View().left == [] && View().right == [];
      }
    }

    /** The loop of embeddedCliProcess. */
    method DrainQueue(ghost s: Line, ghost before: string, ghost queue: string)
      requires Ready() && Settled(cfg, View()) && View() == s && output == before
      requires rxBuffer.Valid() && rxBuffer.Contents() == queue && rxBuffer.buf != cmdBuffer
               && rxBuffer.buf != history.buf
      modifies this`output, this`inputLineLength, this`cmdSize, this`cursorPos, this`escapeMode, this`lastChar,
               this`calls
      modifies cmdBuffer, bindingsFlags, history`itemsCount, history`items, history`current, history.buf, rxBuffer`front
      ensures Ready() && Settled(cfg, View()) && rxBuffer.Valid() && rxBuffer.Contents() == []
      ensures View() == Run(cfg, s, queue) && output == RunOutput(cfg, s, before, queue)
    {
      hide Sound, Settled, GoodConfig, Run, RunOutput, Fifo.Ring, NoZero;
      ghost var done := [];
      RunNothing(s, before);
      var n := rxBuffer.Available();
      while n > 0
        invariant Ready() && Settled(cfg, View()) && rxBuffer.Valid() && n == |rxBuffer.Contents()|
        invariant done + rxBuffer.Contents() == queue
        invariant View() == Run(cfg, s, done) && output == RunOutput(cfg, s, before, done)
        decreases n
      {
        var c := ProcessNext(s, before, done);
        assert done + ([c] + rxBuffer.Contents()) == done + [c] + rxBuffer.Contents();
        done := done + [c];
        n := rxBuffer.Available();
      }
      assert done + rxBuffer.Contents() == done;
    }

    method ProcessNext(ghost s: Line, ghost before: string, ghost done: string) returns (c: char)
      requires Ready() && Settled(cfg, View()) && View() == Run(cfg, s, done)
               && output == RunOutput(cfg, s, before, done)
      requires rxBuffer.Valid() && rxBuffer.Contents() != [] && rxBuffer.buf != cmdBuffer && rxBuffer.buf != history.buf
      modifies this`output, this`inputLineLength, this`cmdSize, this`cursorPos, this`escapeMode, this`lastChar,
               this`calls
      modifies cmdBuffer, bindingsFlags, history`itemsCount, history`items, history`current, history.buf, rxBuffer`front
      ensures Ready() && Settled(cfg, View()) && View() == Run(cfg, s, done + [c])
              && output == RunOutput(cfg, s, before, done + [c])
      ensures rxBuffer.Valid() && [c] + rxBuffer.Contents() == old(rxBuffer.Contents())
    {
      hide Sound, Settled, GoodConfig, Process, ProcessOutput, Run, RunOutput;
      c := rxBuffer.Pop();
      NextCharacter(s, before, done, c);
      ProcessChar(c);
    }

    lemma RunNothing(s: Line, before: string)
      ensures Run(cfg, s, []) == s && RunOutput(cfg, s, before, []) == before
    {
    }

    lemma NextCharacter(s: Line, before: string, done: string, c: char)
      ensures Run(cfg, s, done + [c]) == Process(cfg, Run(cfg, s, done), c)
      ensures RunOutput(cfg, s, before, done + [c]) ==
              RunOutput(cfg, s, before, done) + ProcessOutput(cfg, Run(cfg, s, done), c)
    {
      assert (done + [c])[..|done|] == done;
    }

    /** cli_putchar: the character is queued and handled at once, so the queue never overflows. */
    method PutChar(c: char)
      requires Ready() && Settled(cfg, View()) && Idle()
      modifies this, cmdBuffer, bindingsFlags, history, history.buf, rxBuffer`front, rxBuffer`back, rxBuffer.buf
      ensures Ready() && Settled(cfg, View()) && Idle() && initComplete
      ensures View() == Process(cfg, old(View()), c)
      ensures output == old(output) + (if old(initComplete) then [] else cfg.invitation)
              + ProcessOutput(cfg, old(View()), c)
    {
      hide Sound, Settled, GoodConfig, Process, ProcessOutput, Run, RunOutput, Fifo.Ring, NoZero;
      ReceiveChar(c);
      ghost var s, before := View(), output + if initComplete then [] else cfg.invitation;
      NextCharacter(s, before, [], c);
      RunNothing(s, before);
      assert [] + [c] == [c];
      ProcessQueue();
    }

    /** embeddedCliReceiveChar. */
    method ReceiveChar(c: char)
      requires rxBuffer.Valid()
      modifies this`overflow, rxBuffer`back, rxBuffer.buf
      ensures rxBuffer.Valid()
      ensures overflow == (old(overflow) || |old(rxBuffer.Contents())| + 1 >= rxBuffer.buf.Length)
      ensures rxBuffer.Contents() ==
              old(rxBuffer.Contents()) + if |old(rxBuffer.Contents())| + 1 < rxBuffer.buf.Length then [c] else []
    {
      var ok := rxBuffer.Push(c);
      if !ok {
        overflow := true;
      }
    }
  }
}
