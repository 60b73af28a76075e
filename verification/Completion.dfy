/**
 Completion of a partly typed command: which binding names extend it, and how far all of
 them agree.
 */
module Completion {

  /** The names that extend a typed line, in the order of the bindings. */
  function Candidates(names: seq<string>, line: string): seq<string> {
    if names == [] then []
    else
      var n := |names| - 1;
      Candidates(names[..n], line) + if line <= names[n] then [names[n]] else []
  }

  lemma {:induction false} CandidatesAre(names: seq<string>, line: string)
    ensures forall x :: x in Candidates(names, line) <==> x in names && line <= x
  {
    if names != [] {
      CandidatesAre(names[..|names| - 1], line);
    }
  }

  /** The length of the longest common prefix of two strings. */
  function Agreement(a: string, b: string): (n: nat)
    ensures n <= |a| && n <= |b| && a[..n] == b[..n] && (n < |a| && n < |b| ==> a[n] != b[n])
  {
    if a == [] || b == [] || a[0] != b[0] then 0 else 1 + Agreement(a[1..], b[1..])
  }

  function CommonLength(cands: seq<string>): nat
    requires cands != []
  {
    var n := |cands| - 1;
    if n == 0 then |cands[0]|
    else
      var before := CommonLength(cands[..n]);
      var with := Agreement(cands[0], cands[n]);
      if with < before then with else before
  }

  ghost predicate IsCommonPrefix(p: string, cands: seq<string>) {
    forall x :: x in cands ==> p <= x
  }

  /** No common prefix is longer, and every common prefix is a prefix of the longest one. */
  lemma {:induction false} CommonIsLongest(cands: seq<string>)
    requires cands != []
    ensures CommonLength(cands) <= |cands[0]|
    ensures forall p :: IsCommonPrefix(p, cands) <==> p <= cands[0][..CommonLength(cands)]
  {
    var n := |cands| - 1;
    if n == 0 {
      assert cands[0][..|cands[0]|] == cands[0] && cands == [cands[0]];
      forall p ensures IsCommonPrefix(p, cands) <==> p <= cands[0] {
        assert cands[0] in cands;
      }
    } else {
      CommonIsLongest(cands[..n]);
      forall p ensures IsCommonPrefix(p, cands) <==> p <= cands[0][..CommonLength(cands)] {
        SplitLast(p, cands);
        AgreementPrefix(p, cands[0], cands[n], CommonLength(cands[..n]));
      }
    }
  }

  lemma SplitLast(p: string, cands: seq<string>)
    requires cands != []
    ensures IsCommonPrefix(p, cands) <==> IsCommonPrefix(p, cands[..|cands| - 1]) && p <= cands[|cands| - 1]
  {
    var n := |cands| - 1;
    assert cands[n] in cands;
    forall x | x in cands[..n] ensures x in cands {
    }
    forall x | x in cands ensures x in cands[..n] || x == cands[n] {
      assert cands == cands[..n] + [cands[n]];
    }
  }

  lemma AgreementPrefix(p: string, a: string, b: string, m: nat)
    requires m <= |a|
    ensures p <= a[..m] && p <= b <==> p <= a[..if Agreement(a, b) < m then Agreement(a, b) else m]
  {
    var k := Agreement(a, b);
    if p <= a && p <= b {
      assert forall i :: 0 <= i < |p| ==> a[i] == p[i] == b[i];
      assert |p| <= k;
    }
    if p <= a[..k] {
      assert p == a[..k][..|p|] == b[..k][..|p|];
    }
  }

  /** A name that is typed in full is all that the names extending it have in common. */
  lemma ExactIsCommon(names: seq<string>, line: string)
    requires line in names
    ensures Candidates(names, line) != [] && CommonLength(Candidates(names, line)) == |line|
    ensures |Candidates(names, line)| == 1 ==> Candidates(names, line) == [line]
  {
    var cands := Candidates(names, line);
    CandidatesAre(names, line);
    assert line in cands;
    CommonIsLongest(cands);
    assert IsCommonPrefix(line, cands);
    var p := cands[0][..CommonLength(cands)];
    assert IsCommonPrefix(p, cands);
  }

  /** The line itself is common to its candidates. */
  lemma CommonExtends(names: seq<string>, line: string)
    requires Candidates(names, line) != []
    ensures var cands := Candidates(names, line); line <= cands[0][..CommonLength(cands)]
  {
    CandidatesAre(names, line);
    CommonIsLongest(Candidates(names, line));
    assert IsCommonPrefix(line, Candidates(names, line));
  }

  lemma PrefixAndRest(text: string, name: string, n: nat)
    requires n <= |name| && text <= name[..n]
    ensures text + name[|text|..n] == name[..n]
  {
  }

  /** AutocompletedCommand: no candidates leave the other two fields empty. */
  datatype Completed = Completed(firstCandidate: string, autocompletedLen: nat, candidateCount: nat)

  function Complete(names: seq<string>, line: string): Completed {
    var cands := Candidates(names, line);
    if line == [] || cands == [] then Completed([], 0, 0) else Completed(cands[0], CommonLength(cands), |cands|)
  }

  /** getAutocompletedCommand, for a command of `cmdSize` characters that is itself the prefix. */
  method GetAutocompletedCommand(names: seq<string>, prefix: string, cmdSize: nat, bindingsFlags: array<bool>)
      returns (cmd: Completed)
    requires cmdSize == |prefix| && bindingsFlags.Length >= |names|
    modifies bindingsFlags
    ensures cmd == Complete(names, prefix)
    ensures cmd.candidateCount > 0 ==> forall i :: 0 <= i < |names| ==> (bindingsFlags[i] <==> prefix <= names[i])
  {
    hide Candidates, CommonLength;
    cmd := Completed([], 0, 0);
    NoneYet(names, prefix);
    if |names| == 0 || |prefix| == 0 {
      return;
    }
    var i := 0;
    while i < |names|
      invariant 0 <= i <= |names|
      invariant cmd == Complete(names[..i], prefix)
      invariant forall k :: 0 <= k < i ==> (bindingsFlags[k] <==> prefix <= names[k])
    {
      var name := names[i];
      CandidatesNext(names, prefix, i);
      CandidatesExtend(names[..i], prefix);
      var isCandidate := Extends(prefix, name);
      bindingsFlags[i] := isCandidate;
      if isCandidate {
        cmd := AddCandidate(cmd, name, cmdSize, Candidates(names[..i], prefix), prefix);
      }
      i := i + 1;
    }
    assert names[..i] == names;
  }

  lemma NoneYet(names: seq<string>, line: string)
    ensures Candidates(names[..0], line) == [] && (|names| == 0 ==> Candidates(names, line) == [])
  {
    assert names[..0] == [];
  }

  lemma CandidatesExtend(names: seq<string>, line: string)
    ensures var cands := Candidates(names, line); forall k :: 0 <= k < |cands| ==> line <= cands[k]
  {
    CandidatesAre(names, line);
    var cands := Candidates(names, line);
    forall k | 0 <= k < |cands| ensures line <= cands[k] {
      assert cands[k] in cands;
    }
  }

  lemma CandidatesNext(names: seq<string>, line: string, i: nat)
    requires i < |names|
    ensures Candidates(names[..i + 1], line) ==
            if line <= names[i] then Candidates(names[..i], line) + [names[i]] else Candidates(names[..i], line)
  {
    assert names[..i + 1][..i] == names[..i];
    assert Candidates(names[..i], line) + [] == Candidates(names[..i], line);
  }

  /** Whether a name is at least as long as the typed prefix and starts with it. */
  method Extends(prefix: string, name: string) returns (isCandidate: bool)
    ensures isCandidate <==> prefix <= name
  {
    if |name| < |prefix| {
      return false;
    }
    isCandidate := true;
    for j := 0 to |prefix|
      invariant isCandidate && prefix[..j] == name[..j]
    {
      if prefix[j] != name[j] {
        return false;
      }
    }
  }

  function Shorter(a: nat, b: nat): nat {
    if a < b then a else b
  }

  lemma AgreesAtLeast(p: string, a: string, b: string)
    requires p <= a && p <= b
    ensures |p| <= Agreement(a, b)
  {
    assert forall i :: 0 <= i < |p| ==> a[i] == p[i] == b[i];
  }

  /** One more candidate: the completion shrinks to what it shares with the first one. */
  method AddCandidate(cmd: Completed, name: string, cmdSize: nat, ghost cands: seq<string>, ghost prefix: string)
      returns (next: Completed)
    requires cmdSize == |prefix| && prefix <= name
    requires forall k :: 0 <= k < |cands| ==> prefix <= cands[k]
    requires cmd == if cands == [] then Completed([], 0, 0) else Completed(cands[0], CommonLength(cands), |cands|)
    ensures next == Completed((cands + [name])[0], CommonLength(cands + [name]), |cands| + 1)
  {
    next := cmd;
    if next.candidateCount == 0 || |name| < next.autocompletedLen {
      next := next.(autocompletedLen := |name|);
    }
    next := next.(candidateCount := next.candidateCount + 1);
    if next.candidateCount == 1 {
      next := next.(firstCandidate := name);
      return;
    }
    assert (cands + [name])[..|cands|] == cands;
    CommonIsLongest(cands);
    AgreesAtLeast(prefix, next.firstCandidate, name);
    var len := SharedLength(next.firstCandidate, name, cmdSize, next.autocompletedLen);
    next := next.(autocompletedLen := len);
  }

  /** The loop that looks for the first difference between a candidate and the first one, behind what is typed. */
  method SharedLength(first: string, name: string, cmdSize: nat, len: nat) returns (shared: nat)
    requires cmdSize <= Agreement(first, name) && len <= |first| && len <= |name|
    ensures shared == Shorter(len, Agreement(first, name))
  {
    var j := cmdSize;
    while j < len
      invariant cmdSize <= j <= Agreement(first, name)
    {
      if first[j] != name[j] {
        return j;
      }
      j := j + 1;
    }
    return len;
  }
}
