/** Finding a command's name and arguments in the command buffer, by writing zeros over the spaces around the name. */
module CommandParts {
  import opened Commands
  import opened PackedStrings

  /**
   What the scan has seen of a line: spaces, the name from `name` to `end`, more spaces, and
   arguments from `args`; -1 stands for what has not been found, and `end` is where the name
   ends as far as it is known.
   */
  datatype Parts = Parts(name: int, end: nat, finished: bool, args: int)

  predicate Blank(line: string, i: nat, j: nat)
    requires j <= |line|
  {
    forall k :: i <= k < j ==> line[k] == ' '
  }

  predicate Solid(line: string, i: nat, j: nat)
    requires j <= |line|
  {
    forall k :: i <= k < j ==> line[k] != ' '
  }

  ghost predicate Scanned(line: string, i: nat, p: Parts) {
    && i <= |line| && -1 <= p.name < i && -1 <= p.args < i
    && (p.name < 0 ==> Blank(line, 0, i) && !p.finished && p.args < 0)
    && (p.name >= 0 ==>
          && p.name < p.end <= i && Blank(line, 0, p.name) && Solid(line, p.name, p.end)
          && (p.finished <==> p.end < i)
          && Blank(line, p.end, if p.args >= 0 then p.args else i)
          && (p.args >= 0 ==> p.end < p.args && line[p.args] != ' '))
  }

  function Scan(p: Parts, c: char, i: nat): Parts {
    if c == ' ' then p.(finished := p.name >= 0)
    else if p.name < 0 then p.(name := i, end := i + 1)
    else if p.args < 0 && p.finished then p.(args := i)
    else if p.args < 0 then p.(end := i + 1)
    else p
  }

  lemma ScanStep(line: string, i: nat, p: Parts)
    requires i < |line| && Scanned(line, i, p)
    ensures Scanned(line, i + 1, Scan(p, line[i], i))
  {
  }

  /** The parts that the scan has found are the command's name and what follows it. */
  lemma ScannedParts(line: string, p: Parts)
    requires Scanned(line, |line|, p) && p.name >= 0
    ensures line[p.name..p.end] == CommandName(line)
    ensures CommandRest(line) == if p.args < 0 then [] else line[p.args..]
  {
    var stop := if p.args < 0 then |line| else p.args;
    var before, name, gap, rest := line[..p.name], line[p.name..p.end], line[p.end..stop], line[stop..];
    assert line == before + (name + (gap + rest));
    assert rest != [] ==> rest[0] == line[p.args];
    LineParts(before, name, gap, rest);
  }

  /** The character at `j` once the scan has passed it: a space before the arguments becomes a zero. */
  function Zeroed(line: string, j: nat, args: int): char
    requires j < |line|
  {
    if line[j] == ' ' && (args < 0 || j < args) then '\0' else line[j]
  }

  /** The loop of parseCommand that splits the buffer. */
  method FindParts(buf: array<char>, cmdSize: nat, ghost line: string)
      returns (cmdName: int, cmdArgs: int, ghost p: Parts)
    requires cmdSize == |line| < buf.Length && forall j :: 0 <= j < |line| ==> buf[j] == line[j]
    modifies buf
    ensures Scanned(line, |line|, p) && p.name == cmdName && p.args == cmdArgs
    ensures forall j :: 0 <= j < |line| ==> buf[j] == Zeroed(line, j, cmdArgs)
    ensures forall j :: |line| <= j < buf.Length ==> buf[j] == old(buf[j])
  {
    cmdName, cmdArgs := -1, -1;
    var nameFinished := false;
    p := Parts(-1, 0, false, -1);
    for i := 0 to cmdSize
      invariant Scanned(line, i, p) && p.name == cmdName && p.args == cmdArgs && p.finished == nameFinished
      invariant forall j :: 0 <= j < i ==> buf[j] == Zeroed(line, j, cmdArgs)
      invariant forall j :: i <= j < |line| ==> buf[j] == line[j]
      invariant forall j :: |line| <= j < buf.Length ==> buf[j] == old(buf[j])
    {
      ScanStep(line, i, p);
      p := Scan(p, line[i], i);
      var c := buf[i];
      if c == ' ' {
        if cmdArgs < 0 {
          buf[i] := '\0';
        }
        if cmdName >= 0 {
          nameFinished := true;
        }
      } else if cmdName < 0 {
        cmdName := i;
      } else if cmdArgs < 0 && nameFinished {
        cmdArgs := i;
      }
    }
  }

  /** Where the buffer holds the name and the arguments as C strings. */
  lemma PartsHeld(line: string, p: Parts, s: string)
    requires Scanned(line, |line|, p) && p.name >= 0 && |line| < |s| && s[|line|] == '\0'
    requires forall j :: 0 <= j < |line| ==> line[j] != '\0' && s[j] == Zeroed(line, j, p.args)
    ensures TextAt(s, p.name) == CommandName(line)
    ensures p.args >= 0 ==> s[p.args..|line|] == CommandRest(line) && TextAt(s, p.args) == CommandRest(line)
    ensures p.args < 0 <==> CommandRest(line) == []
  {
    hide CommandName, CommandRest, TextAt;
    ScannedParts(line, p);
    assert s[p.name..p.end] == line[p.name..p.end];
    assert s[p.end] == '\0';
    TextIs(s, p.name, line[p.name..p.end]);
    if p.args >= 0 {
      assert s[p.args..|line|] == line[p.args..];
      TextIs(s, p.args, line[p.args..]);
    }
  }

  lemma NotBlank(line: string, p: Parts)
    requires Scanned(line, |line|, p)
    ensures p.name < 0 <==> AllSpaces(line)
  {
    if p.name >= 0 {
      assert line[p.name] != ' ';
    } else {
      assert Blank(line, 0, |line|);
    }
  }
}
