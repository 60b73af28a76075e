/** What an entered line asks for: its name, its arguments, and the binding that is run. */
module Commands {
  import opened Common
  import Tokenizer
  import PackedStrings

  /** CliCommandBinding; `runs` tells whether the binding has a function. */
  datatype Binding = Binding(name: string, help: Option<string>, tokenizeArgs: bool, runs: bool)

  /** What a command receives as its arguments. */
  datatype Args = NoArgs | Raw(text: string) | Tokenized(tokens: seq<string>)

  /**
   What an entered line leads to: a binding's function, a binding's help, the callback for
   commands without a binding, or a complaint when no such callback is set.
   */
  datatype Call =
    Invoke(binding: nat, args: Args) | HelpFor(binding: nat) | Default(name: string, args: Args) | Unknown(name: string)

  function Names(bindings: seq<Binding>): (names: seq<string>)
    ensures |names| == |bindings| && forall i :: 0 <= i < |names| ==> names[i] == bindings[i].name
  {
    seq(|bindings|, i requires 0 <= i < |bindings| => bindings[i].name)
  }

  function SkipSpaces(s: string): string {
    if s != [] && s[0] == ' ' then SkipSpaces(s[1..]) else s
  }

  /** Everything before the first space. */
  function Word(s: string): (w: string)
    ensures w <= s
  {
    if s == [] || s[0] == ' ' then [] else [s[0]] + Word(s[1..])
  }

  function CommandName(line: string): string {
    Word(SkipSpaces(line))
  }

  /** Everything from the first character after the spaces that follow the name. */
  function CommandRest(line: string): string {
    var s := SkipSpaces(line);
    SkipSpaces(s[|Word(s)|..])
  }

  /** The first binding with a name, or the number of bindings. */
  function Lookup(bindings: seq<Binding>, name: string): (k: nat)
    ensures k <= |bindings| && (k < |bindings| ==> bindings[k].name == name)
    ensures forall i :: 0 <= i < k ==> bindings[i].name != name
  {
    if bindings == [] then 0 else if bindings[0].name == name then 0 else 1 + Lookup(bindings[1..], name)
  }

  function ArgsFor(tokenize: bool, rest: string): Args {
    if rest == [] then NoArgs else if tokenize then Tokenized(Tokenizer.Tokens(rest)) else Raw(rest)
  }

  /** The C string that a command's argument pointer points to. */
  function FirstText(args: Args): string {
    match args
    case NoArgs => []
    case Raw(text) => text
    case Tokenized(tokens) => if tokens == [] then [] else tokens[0]
  }

  predicate AsksForHelp(args: Args) {
    FirstText(args) == "-h" || FirstText(args) == "--help"
  }

  /** The call for a command without a binding, or whose binding has no function. */
  function Unbound(onCommand: bool, name: string, rest: string): Call {
    if onCommand then Default(name, ArgsFor(false, rest)) else Unknown(name)
  }

  function Dispatch(bindings: seq<Binding>, onCommand: bool, line: string): Call {
    var k := Lookup(bindings, CommandName(line));
    if k == |bindings| || !bindings[k].runs then Unbound(onCommand, CommandName(line), CommandRest(line))
    else
      var args := ArgsFor(bindings[k].tokenizeArgs, CommandRest(line));
      if AsksForHelp(args) then HelpFor(k) else Invoke(k, args)
  }

  // ----- the parts of a line -----

  predicate NoSpace(s: string) {
    forall i :: 0 <= i < |s| ==> s[i] != ' '
  }

  predicate AllSpaces(s: string) {
    forall i :: 0 <= i < |s| ==> s[i] == ' '
  }

  lemma {:induction false} SkipBlanks(blanks: string, s: string)
    requires AllSpaces(blanks) && (s == [] || s[0] != ' ')
    ensures SkipSpaces(blanks + s) == s
  {
    if blanks == [] {
      assert blanks + s == s;
    } else {
      assert (blanks + s)[1..] == blanks[1..] + s;
      SkipBlanks(blanks[1..], s);
    }
  }

  lemma {:induction false} WordIs(w: string, s: string)
    requires NoSpace(w) && (s == [] || s[0] == ' ')
    ensures Word(w + s) == w
  {
    if w == [] {
      assert w + s == s;
    } else {
      assert (w + s)[1..] == w[1..] + s;
      WordIs(w[1..], s);
    }
  }

  /** Any line made of a name, spaces around it, and a rest is taken apart into just these. */
  lemma LineParts(before: string, name: string, gap: string, rest: string)
    requires AllSpaces(before) && NoSpace(name) && name != [] && AllSpaces(gap)
    requires rest != [] ==> rest[0] != ' ' && gap != []
    ensures var line := before + (name + (gap + rest)); CommandName(line) == name && CommandRest(line) == rest
  {
    SkipBlanks(before, name + (gap + rest));
    var s := name + (gap + rest);
    assert gap + rest == [] || (gap + rest)[0] == ' ';
    WordIs(name, gap + rest);
    assert s[|name|..] == gap + rest;
    SkipBlanks(gap, rest);
  }

  /** A binding's name, alone or followed by a space, runs the first binding of that name. */
  lemma NameRuns(bindings: seq<Binding>, onCommand: bool, name: string, trailing: string)
    requires name != [] && NoSpace(name) && AllSpaces(trailing)
    ensures var k := Lookup(bindings, name);
            Dispatch(bindings, onCommand, name + trailing) ==
            if k < |bindings| && bindings[k].runs then Invoke(k, NoArgs) else Unbound(onCommand, name, [])
  {
    LineParts([], name, trailing, []);
    assert [] + (name + (trailing + [])) == name + trailing;
  }

  /**
   A name with a rest that is not cut into tokens: its first binding gets the rest as it is, unless
   that is one of the two calls for help; without a binding the default callback gets it.
   */
  lemma RestReachesCommand(bindings: seq<Binding>, onCommand: bool, before: string, name: string, gap: string,
                           rest: string, k: nat)
    requires AllSpaces(before) && NoSpace(name) && name != [] && AllSpaces(gap) && gap != []
    requires rest != [] && rest[0] != ' '
    requires k <= |bindings| && (forall i :: 0 <= i < k ==> bindings[i].name != name)
    requires k < |bindings| ==> bindings[k].name == name && !bindings[k].tokenizeArgs
    ensures Dispatch(bindings, onCommand, before + (name + (gap + rest))) ==
            if k < |bindings| && bindings[k].runs then
              (if rest == "-h" || rest == "--help" then HelpFor(k) else Invoke(k, Raw(rest)))
            else if onCommand then Default(name, Raw(rest))
            else Unknown(name)
  {
    hide CommandName, CommandRest;
    LineParts(before, name, gap, rest);
    if k < |bindings| {
      LookupFinds(bindings, k);
    }
  }

  /** A name alone, with spaces around it, runs its first binding or goes to the default callback. */
  lemma NameReachesCommand(bindings: seq<Binding>, onCommand: bool, before: string, name: string, gap: string, k: nat)
    requires AllSpaces(before) && NoSpace(name) && name != [] && AllSpaces(gap)
    requires k <= |bindings| && (forall i :: 0 <= i < k ==> bindings[i].name != name)
    requires k < |bindings| ==> bindings[k].name == name
    ensures Dispatch(bindings, onCommand, before + (name + (gap + []))) ==
            if k < |bindings| && bindings[k].runs then Invoke(k, NoArgs)
            else if onCommand then Default(name, NoArgs)
            else Unknown(name)
  {
    hide CommandName, CommandRest;
    LineParts(before, name, gap, []);
    if k < |bindings| {
      LookupFinds(bindings, k);
    }
  }

  lemma {:induction false} LookupFinds(bindings: seq<Binding>, k: nat)
    requires k < |bindings| && forall i :: 0 <= i < k ==> bindings[i].name != bindings[k].name
    ensures Lookup(bindings, bindings[k].name) == k
  {
  }

  /** Tokens written after a name, escaped and separated by spaces, reach the binding unchanged. */
  lemma TokensReachCommand(bindings: seq<Binding>, onCommand: bool, k: nat, tokens: seq<string>)
    requires k < |bindings| && forall i :: 0 <= i < k ==> bindings[i].name != bindings[k].name
    requires bindings[k].runs && bindings[k].tokenizeArgs && bindings[k].name != [] && NoSpace(bindings[k].name)
    requires tokens != [] && PackedStrings.AllItems(tokens)
    ensures Dispatch(bindings, onCommand, bindings[k].name + " " + Tokenizer.Join(tokens)) ==
            if tokens[0] == "-h" || tokens[0] == "--help" then HelpFor(k) else Invoke(k, Tokenized(tokens))
  {
    hide CommandName, CommandRest, Tokenizer.Tokens, Tokenizer.Join;
    var name, rest := bindings[k].name, Tokenizer.Join(tokens);
    JoinStarts(tokens);
    LineParts([], name, " ", rest);
    assert [] + (name + (" " + rest)) == name + " " + rest;
    LookupFinds(bindings, k);
    Tokenizer.TokensOfJoin(tokens);
  }

  lemma JoinStarts(tokens: seq<string>)
    requires tokens != [] && tokens[0] != []
    ensures Tokenizer.Join(tokens) != [] && Tokenizer.Join(tokens)[0] != ' '
  {
    var q := Tokenizer.Quote(tokens[0]);
    assert q != [] && q[0] != ' ';
  }
}
