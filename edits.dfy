/**
 * The edits a buffer makes in place, as functions on sequences: inserting
 * and removing one element (`String::insert` and `String::remove` on a
 * line, `Vec::remove` on the line list) and merging a line into the one
 * before it (`Vec::remove` followed by `push_str`).  Each edit is related
 * to the saved text: editing a line edits the text at that line's offset.
 */
module Edits {
  import opened Text

  /** `s` with `x` placed before position `i`; `i == |s|` appends. */
  function InsertedAt<T>(s: seq<T>, i: nat, x: T): (r: seq<T>)
    requires i <= |s|
    ensures |r| == |s| + 1
  {
    s[..i] + [x] + s[i..]
  }

  /** `s` without its element at position `i`. */
  function RemovedAt<T>(s: seq<T>, i: nat): (r: seq<T>)
    requires i < |s|
    ensures |r| == |s| - 1
  {
    s[..i] + s[i + 1..]
  }

  /** The lines after a line join: line `i` is appended to line `i - 1`
      and no longer stands on its own. */
  function Merged(ls: seq<string>, i: nat): (r: seq<string>)
    requires 0 < i < |ls|
    ensures |r| == |ls| - 1
  {
    ls[..i - 1] + [ls[i - 1] + ls[i]] + ls[i + 1..]
  }

  /** Inserting at `i` puts `x` at `i`, keeps the elements before `i` in
      place and moves the rest one place right. */
  lemma {:induction false} InsertedAtElements<T>(s: seq<T>, i: nat, x: T)
    requires i <= |s|
    ensures InsertedAt(s, i, x)[i] == x
    ensures forall k :: 0 <= k < i ==> InsertedAt(s, i, x)[k] == s[k]
    ensures forall k :: i < k <= |s| ==> InsertedAt(s, i, x)[k] == s[k - 1]
  {
  }

  /** Removing at `i` keeps the elements before `i` in place and moves those
      after it one place left. */
  lemma {:induction false} RemovedAtElements<T>(s: seq<T>, i: nat)
    requires i < |s|
    ensures forall k :: 0 <= k < i ==> RemovedAt(s, i)[k] == s[k]
    ensures forall k :: i <= k < |s| - 1 ==> RemovedAt(s, i)[k] == s[k + 1]
  {
  }

  /** Removing line `i` and then appending it to line `i - 1`, the order in
      which the buffer does it, gives the merged list. */
  lemma {:induction false} RemoveThenAppend(ls: seq<string>, i: nat)
    requires 0 < i < |ls|
    ensures RemovedAt(ls, i)[i - 1 := ls[i - 1] + ls[i]] == Merged(ls, i)
  {
  }

  // ---------------------------------------------------------------------
  // Inserting and removing at the same position undo each other.
  // ---------------------------------------------------------------------

  /** Removing what was just inserted restores the sequence. */
  lemma {:induction false} RemoveInserted<T>(s: seq<T>, i: nat, x: T)
    requires i <= |s|
    ensures RemovedAt(InsertedAt(s, i, x), i) == s
  {
  }

  /** Putting back what was just removed restores the sequence. */
  lemma {:induction false} InsertRemoved<T>(s: seq<T>, i: nat)
    requires i < |s|
    ensures InsertedAt(RemovedAt(s, i), i, s[i]) == s
  {
  }

  // ---------------------------------------------------------------------
  // Facts about sequences that the edits below rest on.
  // ---------------------------------------------------------------------

  /** Inserting into the middle of `p + s + q` leaves `p` and `q` alone. */
  lemma {:induction false} InsertInMiddle<T>(t: seq<T>, t2: seq<T>, p: seq<T>, s: seq<T>, q: seq<T>, j: nat, k: nat, x: T)
    requires t == p + s + q && j <= |s| && k == |p| + j
    requires t2 == p + InsertedAt(s, j, x) + q
    ensures k <= |t| && t2 == InsertedAt(t, k, x)
  {
  }

  /** Removing from the middle of `p + s + q` leaves `p` and `q` alone. */
  lemma {:induction false} RemoveInMiddle<T>(t: seq<T>, t2: seq<T>, p: seq<T>, s: seq<T>, q: seq<T>, j: nat, k: nat)
    requires t == p + s + q && j < |s| && k == |p| + j
    requires t2 == p + RemovedAt(s, j) + q
    ensures k < |t| && t[k] == s[j] && t2 == RemovedAt(t, k)
  {
  }

  /** Dropping the one-element separator `sep` fuses `a` and `b`. */
  lemma {:induction false} DropSeparator<T>(t: seq<T>, m: seq<T>, p: seq<T>, a: seq<T>, sep: seq<T>, b: seq<T>, q: seq<T>, k: nat)
    requires |sep| == 1 && t == p + a + (sep + b + q) && k == |p| + |a|
    requires m == p + (a + b) + q
    ensures k < |t| && m == RemovedAt(t, k)
  {
  }

  /** Cutting `x` and the one-element separator after it out of `t`. */
  lemma {:induction false} CutOut<T>(t: seq<T>, d: seq<T>, p: seq<T>, x: seq<T>, sep: seq<T>, y: seq<T>, z: seq<T>, k: nat)
    requires |sep| == 1 && t == p + x + (sep + y + z) && k == |p|
    requires d == p + (y + z)
    ensures k + |x| + 1 <= |t| && d == t[..k] + t[k + |x| + 1..]
  {
  }

  // ---------------------------------------------------------------------
  // What each edit does to the saved text.
  // ---------------------------------------------------------------------

  /** Changing line `i` changes only its own stretch of the saved text. */
  lemma {:induction false} ReplaceInText(ls: seq<string>, i: nat, t: string)
    requires i < |ls|
    ensures Join(ls[i := t]) == Before(ls, i) + t + After(ls, i)
  {
    var ls2 := ls[i := t];
    JoinAround(ls2, i);
    assert ls2[..i] == ls[..i];
    assert ls2[i + 1..] == ls[i + 1..];
  }

  /** Inserting a character at column `col` of line `line` inserts it into
      the saved text at that line's offset plus `col`. */
  lemma {:induction false} InsertInText(ls: seq<string>, line: nat, col: nat, c: char)
    requires line < |ls| && col <= |ls[line]|
    ensures Join(ls[line := InsertedAt(ls[line], col, c)]) == InsertedAt(Join(ls), Offset(ls, line) + col, c)
  {
    var s2 := InsertedAt(ls[line], col, c);
    JoinAround(ls, line);
    ReplaceInText(ls, line, s2);
    InsertInMiddle(Join(ls), Join(ls[line := s2]), Before(ls, line), ls[line], After(ls, line), col,
                   Offset(ls, line) + col, c);
  }

  /** Removing the character at column `col` of line `line` removes that
      very character from the saved text. */
  lemma {:induction false} RemoveInText(ls: seq<string>, line: nat, col: nat)
    requires line < |ls| && col < |ls[line]|
    ensures Join(ls)[Offset(ls, line) + col] == ls[line][col]
    ensures Join(ls[line := RemovedAt(ls[line], col)]) == RemovedAt(Join(ls), Offset(ls, line) + col)
  {
    var s2 := RemovedAt(ls[line], col);
    JoinAround(ls, line);
    ReplaceInText(ls, line, s2);
    RemoveInMiddle(Join(ls), Join(ls[line := s2]), Before(ls, line), ls[line], After(ls, line), col,
                   Offset(ls, line) + col);
  }

  /** The merged line takes the place of the two lines it was made from. */
  lemma {:induction false} MergedAround(ls: seq<string>, i: nat)
    requires 0 < i < |ls|
    ensures Join(Merged(ls, i)) == Before(ls, i - 1) + (ls[i - 1] + ls[i]) + After(ls, i)
  {
    var m := Merged(ls, i);
    JoinAround(m, i - 1);
    assert m[..i - 1] == ls[..i - 1];
    assert i - 1 < |m| - 1 ==> m[i..] == ls[i + 1..];
  }

  /** The saved text around the line break in front of line `i`. */
  lemma {:induction false} AroundBreak(ls: seq<string>, i: nat)
    requires 0 < i < |ls|
    ensures Join(ls) == Before(ls, i - 1) + ls[i - 1] + ("\n" + ls[i] + After(ls, i))
    ensures Offset(ls, i) == |Before(ls, i - 1)| + |ls[i - 1]| + 1
  {
    JoinAround(ls, i - 1);
    AfterPrevious(ls, i);
    BeforeExtends(ls, i);
  }

  /** Merging line `i` into line `i - 1` removes exactly the line break
      between them from the saved text. */
  lemma {:induction false} MergeInText(ls: seq<string>, i: nat)
    requires 0 < i < |ls|
    ensures Join(Merged(ls, i)) == RemovedAt(Join(ls), Offset(ls, i) - 1)
  {
    AroundBreak(ls, i);
    MergedAround(ls, i);
    MergeAtBreak(ls, i);
  }

  /** The step of `MergeInText` once both saved texts are cut at the break. */
  lemma {:induction false} MergeAtBreak(ls: seq<string>, i: nat)
    requires 0 < i < |ls|
    requires Join(ls) == Before(ls, i - 1) + ls[i - 1] + ("\n" + ls[i] + After(ls, i))
    requires Join(Merged(ls, i)) == Before(ls, i - 1) + (ls[i - 1] + ls[i]) + After(ls, i)
    ensures |Before(ls, i - 1)| + |ls[i - 1]| < |Join(ls)|
    ensures Join(Merged(ls, i)) == RemovedAt(Join(ls), |Before(ls, i - 1)| + |ls[i - 1]|)
  {
    var p, a, b, q := Before(ls, i - 1), ls[i - 1], ls[i], After(ls, i);
    DropSeparator(Join(ls), Join(Merged(ls, i)), p, a, "\n", b, q, |p| + |a|);
  }

  /** Removing line `i` from a list of several lines removes it from the
      saved text together with one adjacent line break: the one after it,
      or for the last line the one before it. */
  lemma {:induction false} DeleteInText(ls: seq<string>, i: nat)
    requires 1 < |ls| && i < |ls|
    ensures i < |ls| - 1 ==>
      Join(RemovedAt(ls, i)) == Join(ls)[..Offset(ls, i)] + Join(ls)[Offset(ls, i) + |ls[i]| + 1..]
    ensures i == |ls| - 1 ==> Join(RemovedAt(ls, i)) == Join(ls)[..Offset(ls, i) - 1]
  {
    if i < |ls| - 1 {
      DeleteInnerInText(ls, i);
    } else {
      DeleteLastInText(ls);
    }
  }

  /** The list without line `i` joins to the text around line `i` and the
      break after it. */
  lemma {:induction false} RemovedAround(ls: seq<string>, i: nat)
    requires i < |ls| - 1
    ensures Join(RemovedAt(ls, i)) == Before(ls, i) + (ls[i + 1] + After(ls, i + 1))
  {
    var d := RemovedAt(ls, i);
    JoinAround(d, i);
    assert d[..i] == ls[..i];
    BeforeSamePrefix(d, ls, i);
    assert d[i] == ls[i + 1];
    assert d[i + 1..] == ls[i + 2..];
    AfterSameSuffix(d, i, ls, i + 1);
  }

  /** The saved text around the line break after line `i`. */
  lemma {:induction false} AroundNextBreak(ls: seq<string>, i: nat)
    requires i < |ls| - 1
    ensures Join(ls) == Before(ls, i) + ls[i] + ("\n" + ls[i + 1] + After(ls, i + 1))
    ensures Offset(ls, i) == |Before(ls, i)|
  {
    JoinAround(ls, i);
    AfterPrevious(ls, i + 1);
  }

  lemma {:induction false} DeleteInnerInText(ls: seq<string>, i: nat)
    requires i < |ls| - 1
    ensures Join(RemovedAt(ls, i)) == Join(ls)[..Offset(ls, i)] + Join(ls)[Offset(ls, i) + |ls[i]| + 1..]
  {
    AroundNextBreak(ls, i);
    RemovedAround(ls, i);
    CutOut(Join(ls), Join(RemovedAt(ls, i)), Before(ls, i), ls[i], "\n", ls[i + 1], After(ls, i + 1),
           Offset(ls, i));
  }

  lemma {:induction false} DeleteLastInText(ls: seq<string>)
    requires 1 < |ls|
    ensures Join(RemovedAt(ls, |ls| - 1)) == Join(ls)[..Offset(ls, |ls| - 1) - 1]
  {
    var i := |ls| - 1;
    var d := RemovedAt(ls, i);
    JoinAround(ls, i);
    assert d == ls[..i];
    assert Join(ls) == Join(d) + "\n" + ls[i];
  }
}
