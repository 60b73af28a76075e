/** How the command line's own output changes the row with the cursor. */
module ScreenRow {
  import opened Terminal

  /** The row starts with `shown`, is blank from `limit` on, and the cursor is in column `col`. */
  predicate Shows(t: Term, shown: string, col: nat, limit: nat) {
    && t.mode == Ground && t.col == col < |t.row|
    && |shown| <= limit < |t.row|
    && t.row[..|shown|] == shown && t.row[limit..] == Spaces(|t.row| - limit)
  }

  lemma ShownOnBlank(t: Term, s: string)
    requires AtBlank(t) && AllPrintable(s) && |s| < |t.row|
    ensures Shows(Feed(t, s), s, |s|, |s|)
  {
    FeedText(t, s);
  }

  lemma FeedReturn(t: Term, rest: string)
    requires Valid(t) && t.mode == Ground
    ensures Feed(t, ['\r'] + rest) == Feed(t.(col := 0), rest)
  {
    FeedOne(t, '\r', rest);
  }

  lemma Cleared(t: Term, shown: string, col: nat, limit: nat)
    requires Shows(t, shown, col, limit)
    ensures AtBlank(Feed(t, ['\r'] + (Spaces(limit) + ['\r'])))
            && |Feed(t, ['\r'] + (Spaces(limit) + ['\r'])).row| == |t.row|
  {
    FeedReturn(t, Spaces(limit) + ['\r']);
    var u := t.(col := 0);
    FeedConcat(u, Spaces(limit), ['\r']);
    FeedText(u, Spaces(limit));
    FeedReturn(Feed(u, Spaces(limit)), []);
    assert ['\r'] + [] == ['\r'];
  }

  lemma Overwritten(t: Term, before: string, more: string, limit: nat)
    requires Shows(t, before, |before|, limit) && AllPrintable(more) && |before| + |more| < |t.row|
    ensures Shows(Feed(t, more), before + more, |before| + |more|,
                  if limit < |before| + |more| then |before| + |more| else limit)
  {
    FeedText(t, more);
  }

  /** A character typed at the end. */
  lemma Appended(t: Term, shown: string, c: char, limit: nat)
    requires Shows(t, shown, |shown|, limit) && Printable(c) && limit + 1 < |t.row|
    ensures Shows(Feed(t, [c]), shown + [c], |shown| + 1, limit + 1)
  {
    Overwritten(t, shown, [c], limit);
  }

  /** A character typed in the middle: the rest of the row moves right before it is written. */
  lemma Inserted(t: Term, a: string, b: string, c: char, limit: nat)
    requires Shows(t, a + b, |a|, limit) && Printable(c) && limit + 1 < |t.row|
    ensures Shows(Feed(t, Simple('@') + [c]), a + [c] + b, |a| + 1, limit + 1)
  {
    InsertMark(t);
    FeedConcat(t, Simple('@'), [c]);
    TypedIn(t, Feed(t, Simple('@')), a, b, c, limit);
  }

  lemma TypedIn(t: Term, u: Term, a: string, b: string, c: char, limit: nat)
    requires Shows(t, a + b, |a|, limit) && Printable(c) && limit + 1 < |t.row|
    requires u == t.(row := t.row[..t.col] + Spaces(1) + t.row[t.col..|t.row| - 1])
    ensures Shows(Feed(u, [c]), a + [c] + b, |a| + 1, limit + 1)
  {
    FilledIn(u, t.row, |a|, c);
    ShiftedRight(t.row, a, b, c, limit);
  }

  lemma InsertMark(t: Term)
    requires Valid(t) && t.mode == Ground
    ensures Feed(t, Simple('@')) == t.(row := t.row[..t.col] + Spaces(1) + t.row[t.col..|t.row| - 1])
  {
    FeedSimple(t, '@');
    ControlInsert(t);
  }

  lemma FilledIn(u: Term, row: string, k: nat, c: char)
    requires k + 1 < |row| && u.mode == Ground && u.col == k && Printable(c)
    requires u.row == row[..k] + Spaces(1) + row[k..|row| - 1]
    ensures Feed(u, [c]) == u.(row := row[..k] + [c] + row[k..|row| - 1], col := k + 1)
  {
    FeedText(u, [c]);
    assert u.row[..k] + [c] + u.row[k + 1..] == row[..k] + [c] + row[k..|row| - 1];
  }

  lemma ShiftedRight(row: string, a: string, b: string, c: char, limit: nat)
    requires |a + b| <= limit && limit + 1 < |row| && row[..|a + b|] == a + b && row[limit..] == Spaces(|row| - limit)
    ensures var r := row[..|a|] + [c] + row[|a|..|row| - 1];
            r[..|a| + 1 + |b|] == a + [c] + b && r[limit + 1..] == Spaces(|row| - limit - 1)
  {
    assert row[..|a|] == row[..|a + b|][..|a|] == a;
    assert row[|a|..|a| + |b|] == row[..|a + b|][|a|..] == b;
    var r := row[..|a|] + [c] + row[|a|..|row| - 1];
    assert r[limit + 1..] == row[limit..|row| - 1] == row[limit..][..|row| - 1 - limit];
  }

  /** The character before the cursor is taken out and the rest of the row moves left. */
  lemma Deleted(t: Term, a: string, c: char, b: string, limit: nat)
    requires Shows(t, a + [c] + b, |a| + 1, limit)
    ensures Shows(Feed(t, Simple('D') + Simple('P')), a + b, |a|, limit)
  {
    FeedConcat(t, Simple('D'), Simple('P'));
    FeedSimple(t, 'D');
    var u := Control(t, 'D', 0);
    FeedSimple(u, 'P');
    assert Control(u, 'P', 0).row == t.row[..|a|] + t.row[|a| + 1..] + Spaces(1);
    ShiftedLeft(t.row, a, c, b, limit);
  }

  lemma ShiftedLeft(row: string, a: string, c: char, b: string, limit: nat)
    requires |a + [c] + b| <= limit < |row| && row[..|a + [c] + b|] == a + [c] + b
             && row[limit..] == Spaces(|row| - limit)
    ensures var r := row[..|a|] + row[|a| + 1..] + Spaces(1);
            r[..|a| + |b|] == a + b && r[limit..] == Spaces(|row| - limit)
  {
    var p := a + [c] + b;
    assert row[..|a|] == row[..|p|][..|a|] == a;
    assert row[|a| + 1..|p|] == row[..|p|][|a| + 1..] == b;
    var r := row[..|a|] + row[|a| + 1..] + Spaces(1);
    assert r[limit..] == row[limit..][1..] + Spaces(1);
  }

  lemma MovedRight(t: Term, shown: string, col: nat, limit: nat)
    requires Shows(t, shown, col, limit) && col + 1 < |t.row|
    ensures Shows(Feed(t, Simple('C')), shown, col + 1, limit)
  {
    FeedSimple(t, 'C');
  }

  lemma MovedLeft(t: Term, shown: string, col: nat, limit: nat)
    requires Shows(t, shown, col, limit) && col > 0
    ensures Shows(Feed(t, Simple('D')), shown, col - 1, limit)
  {
    FeedSimple(t, 'D');
  }

  /** The output of a live completion. */
  function Refresh(right: nat, suffix: string, blanks: nat): string {
    Simple('s') + (Move(right, 'C') + (suffix + (Spaces(blanks) + Simple('u'))))
  }

  /** A completion written behind the text, with the cursor saved before and restored after. */
  lemma Refreshed(t: Term, shown: string, right: nat, suffix: string, limit: nat)
    requires right <= |shown| && Shows(t, shown, |shown| - right, limit)
    requires AllPrintable(suffix) && |shown| + |suffix| < |t.row|
    ensures var n := |shown| + |suffix|;
            var u := Feed(t, Refresh(right, suffix, if limit < n then 0 else limit - n));
            Shows(u, shown + suffix, |shown| - right, n) && |u.row| == |t.row|
  {
    var n := |shown| + |suffix|;
    var blanks := if limit < n then 0 else limit - n;
    Saved(t, right, suffix + (Spaces(blanks) + Simple('u')));
    var u := t.(saved := t.col, col := |shown|);
    Written(u, shown, suffix, blanks, limit);
  }

  lemma ControlSave(t: Term)
    requires Valid(t) && t.mode == Ground
    ensures Control(t, 's', 0) == t.(saved := t.col)
  {
  }

  lemma ControlRestore(t: Term)
    requires Valid(t) && t.mode == Ground && t.saved < |t.row|
    ensures Control(t, 'u', 0) == t.(col := t.saved)
  {
  }

  lemma ControlInsert(t: Term)
    requires Valid(t) && t.mode == Ground
    ensures Control(t, '@', 0) == t.(row := t.row[..t.col] + Spaces(1) + t.row[t.col..|t.row| - 1])
  {
  }

  lemma FeedPair(t: Term, a: string, b: string, rest: string, u: Term, v: Term)
    requires Valid(t) && Feed(t, a) == u && Feed(u, b) == v
    ensures Feed(t, a + (b + rest)) == Feed(v, rest)
  {
    FeedConcat(t, a, b + rest);
    FeedConcat(u, b, rest);
  }

  lemma SaveMark(t: Term)
    requires Valid(t) && t.mode == Ground
    ensures Feed(t, Simple('s')) == t.(saved := t.col)
  {
    FeedSimple(t, 's');
    ControlSave(t);
  }

  lemma Forward(t: Term, n: nat)
    requires Valid(t) && t.mode == Ground && t.col + n < |t.row|
    ensures Feed(t, Move(n, 'C')) == t.(col := t.col + n)
  {
    FeedMove(t, n, 'C');
  }

  lemma Saved(t: Term, right: nat, rest: string)
    requires Valid(t) && t.mode == Ground && t.col + right < |t.row|
    ensures Feed(t, Simple('s') + (Move(right, 'C') + rest)) == Feed(t.(saved := t.col, col := t.col + right), rest)
  {
    var u := t.(saved := t.col);
    SaveMark(t);
    Forward(u, right);
    FeedPair(t, Simple('s'), Move(right, 'C'), rest, u, u.(col := t.col + right));
  }

  lemma Written(t: Term, shown: string, suffix: string, blanks: nat, limit: nat)
    requires Shows(t, shown, |shown|, limit) && AllPrintable(suffix) && |shown| + |suffix| < |t.row|
             && t.saved < |t.row|
    requires blanks == if limit < |shown| + |suffix| then 0 else limit - |shown| - |suffix|
    ensures Shows(Feed(t, suffix + (Spaces(blanks) + Simple('u'))), shown + suffix, t.saved, |shown| + |suffix|)
    ensures |Feed(t, suffix + (Spaces(blanks) + Simple('u'))).row| == |t.row|
  {
    FeedConcat(t, suffix, Spaces(blanks) + Simple('u'));
    Overwritten(t, shown, suffix, limit);
    KeepsSaved(t, suffix);
    var u := Feed(t, suffix);
    Erased(u, shown + suffix, blanks, if limit < |shown| + |suffix| then |shown| + |suffix| else limit);
  }

  lemma KeepsSaved(t: Term, s: string)
    requires Valid(t) && t.mode == Ground && AllPrintable(s) && t.col + |s| < |t.row|
    ensures Feed(t, s).saved == t.saved
  {
    FeedText(t, s);
  }

  lemma Erased(u: Term, all: string, blanks: nat, limit: nat)
    requires Shows(u, all, |all|, limit) && blanks == limit - |all| && u.saved < |u.row|
    ensures Shows(Feed(u, Spaces(blanks) + Simple('u')), all, u.saved, |all|)
  {
    FeedConcat(u, Spaces(blanks), Simple('u'));
    Blanked(u, all, blanks, limit);
    KeepsSaved(u, Spaces(blanks));
    var v := Feed(u, Spaces(blanks));
    FeedSimple(v, 'u');
    ControlRestore(v);
  }

  lemma Blanked(u: Term, all: string, blanks: nat, limit: nat)
    requires Shows(u, all, |all|, limit) && blanks == limit - |all|
    ensures Shows(Feed(u, Spaces(blanks)), all, |all| + blanks, |all|)
  {
    FeedText(u, Spaces(blanks));
    var v := Feed(u, Spaces(blanks));
    assert v.row == u.row[..|all|] + Spaces(blanks) + u.row[limit..];
    assert v.row[|all|..] == Spaces(blanks) + Spaces(|u.row| - limit);
  }
}
