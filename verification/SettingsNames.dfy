/** Names of the settings: nonempty, made of letters and underscores, and all different. */
module SettingsNames {
  import opened SettingsRecord

  predicate Plain(c: char) {
    'a' <= c <= 'z' || c == '_'
  }

  predicate IsName(s: string) {
    0 < |s| <= 24 && forall i :: 0 <= i < |s| ==> Plain(s[i])
  }

  lemma NamesPlain0(i: nat)
    requires 0 <= i < 5
    ensures IsName(Name(i))
  {
  }

  lemma NamesPlain5(i: nat)
    requires 5 <= i < 10
    ensures IsName(Name(i))
  {
  }

  lemma NamesPlain10(i: nat)
    requires 10 <= i < 15
    ensures IsName(Name(i))
  {
  }

  lemma NamesPlain15(i: nat)
    requires 15 <= i < 19
    ensures IsName(Name(i))
  {
  }

  lemma NamesPlain19(i: nat)
    requires 19 <= i < 23
    ensures IsName(Name(i))
  {
  }

  lemma NamesPlain(i: nat)
    requires i < FIELDS
    ensures IsName(Name(i))
  {
    if i < 5 {
      NamesPlain0(i);
    } else if i < 10 {
      NamesPlain5(i);
    } else if i < 15 {
      NamesPlain10(i);
    } else if i < 19 {
      NamesPlain15(i);
    } else {
      NamesPlain19(i);
    }
  }

  /** The field whose name has length `n`, first letter `a` and last letter `z`. */
  function FromLetters(n: nat, a: char, z: char): nat {
    if n == 16 && a == 'u' && z == 'r' then 0
    else if n == 16 && a == 'l' && z == 'y' then 1
    else if n == 18 && a == 'l' && z == 't' then 2
    else if n == 23 && a == 'd' && z == 't' then 3
    else if n == 24 && a == 'd' && z == 'd' then 4
    else if n == 16 && a == 's' && z == 'p' then 5
    else if n == 21 && a == 'd' && z == 't' then 6
    else if n == 22 && a == 'd' && z == 'd' then 7
    else if n == 14 && a == 's' && z == 'p' then 8
    else if n == 19 && a == 's' && z == 'e' then 9
    else if n == 9 && a == 'l' && z == 't' then 10
    else if n == 18 && a == 'l' && z == 'l' then 11
    else if n == 16 && a == 'l' && z == 't' then 12
    else if n == 12 && a == 'l' && z == 'e' then 13
    else if n == 13 && a == 'l' && z == 'e' then 14
    else if n == 11 && a == 'l' && z == 'p' then 15
    else if n == 12 && a == 'l' && z == 'p' then 16
    else if n == 13 && a == 'u' && z == 'y' then 17
    else if n == 18 && a == 'e' && z == 'n' then 18
    else if n == 16 && a == 'e' && z == 'p' then 19
    else if n == 18 && a == 'e' && z == 's' then 20
    else if n == 9 && a == 'w' && z == 'd' then 21
    else if n == 9 && a == 'w' && z == 's' then 22
    else FIELDS
  }

  lemma NameLetters(i: nat)
    requires i < FIELDS
    ensures Name(i) != [] && FromLetters(|Name(i)|, Name(i)[0], Name(i)[|Name(i)| - 1]) == i
  {
  }

  lemma NamesDistinct(i: nat, j: nat)
    requires i < FIELDS && j < FIELDS && Name(i) == Name(j)
    ensures i == j
  {
    NameLetters(i);
    NameLetters(j);
  }

  /**
   What the round trip needs of a table: usable, distinct names, and the strings last, a
   public one before a secret one.
   */
  predicate GoodTable(t: seq<Field>) {
    && |t| >= 2
    && (forall i :: 0 <= i < |t| ==> IsName(t[i].name))
    && (forall i, j :: 0 <= i < j < |t| ==> t[i].name != t[j].name)
    && (forall i :: 0 <= i < |t| - 2 ==> !t[i].ty.Text?)
    && t[|t| - 2].ty.Text? && !t[|t| - 2].ty.secret
    && t[|t| - 1].ty.Text? && t[|t| - 1].ty.secret && t[|t| - 1].ty.capacity > 0
  }

  /** The table of the firmware is such a table. */
  lemma TableIsGood()
    ensures GoodTable(Table()) && Table()[SSID].ty.capacity == SSID_MAX_LEN
  {
    forall i: nat | i < FIELDS ensures IsName(Name(i)) {
      NamesPlain(i);
    }
    forall i: nat, j: nat | i < j < FIELDS ensures Name(i) != Name(j) {
      if Name(i) == Name(j) {
        NamesDistinct(i, j);
      }
    }
    StringsLast();
  }

  lemma StringsLast()
    ensures forall i: nat :: i < FIELDS ==> (Type(i).Text? <==> i >= FIELDS - 2)
  {
  }
}
