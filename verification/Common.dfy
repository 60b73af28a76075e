/** What several modules share. */
module Common {

  datatype Option<+T> = None | Some(value: T)

  function Min(a: nat, b: nat): nat {
    if a < b then a else b
  }

  /** A string that can stand before a terminator. */
  predicate NoZero(s: string) {
    forall i :: 0 <= i < |s| ==> s[i] != '\0'
  }
}
